# i.MX6 HDMI transmitter driver: a verified model of its decision logic

This project models the sequential decision logic inside the i.MX6 HDMI transmitter driver
(`drivers/video/mxc/mxc_hdmi.c`) and proves what that logic guarantees. The register
plumbing around it is out of scope. The logic has five parts:

- **Mode-list builder** (`ModeList`, `modelist.dfy`). `mxc_hdmi_edid_rebuild_modelist`
  starts the framebuffer's mode list with 640x480 VGA. It then makes four flag-masked
  passes over the EDID mode database. Each pass infers a missing aspect ratio, rounds width
  and height down to a multiple of 8 (`ALIGN2`) in place, and deduplicates with
  `mxc_fb_check_existing`. It adds fractional-refresh and HDMI 1.4 stereoscopic copies of
  each new entry. The class `FbInfo` holds the list (`seq`) and the database (`array`). The
  imperative methods are proved equal to the prefix-recursive specification `BuildUpTo` /
  `Rebuild`, and the lemmas about that specification state what the list contains. The
  default list (`mxc_hdmi_default_modelist`) is modelled the same way.
- **Mode records** (`FbMode`, `fbmode.dfy`). This covers the `fb_videomode` record and its
  flag and vmode bits, `ALIGN2`, aspect inference, the deduplication key and
  `get_refresh_str`.
- **EDID outcome and retry** (`Edid`, `edid.dfy`). This is the classification at the end
  of `mxc_hdmi_read_edid`, the single-retry policy of the cable-connected worker, and the
  segment/offset split of `hdmi_edid_i2c_read`.
- **Colour-space and InfoFrame decisions** (`Video`, `video.dfy`). It covers:
  - `getRGBQuantRange` and the three `isColorSpace*` predicates;
  - the table choice of `update_csc_coeffs`, with the 3x4 coefficient array filled in place;
  - `hdmi_video_csc`, the data map of `hdmi_video_sample` and the selector of
    `hdmi_video_packetize`;
  - the VIC-driven choices of `mxc_hdmi_setup`;
  - the AVI InfoFrame fields of `hdmi_config_AVI` (CEA-861-D section 6.4 codes);
  - `mxc_3d_structure_infoframe`;
  - the timing arithmetic of `hdmi_av_composer`.
- **PHY configuration** (`Phy`, `phy.dfy`). This is `hdmi_phy_configure`: its guards, the
  MPLL and current-control tables keyed by pixel clock and colour resolution (with the
  12-bit fall-through), the board overrides, and the bounded lock poll. The two
  `*_wait_i2c_done` polls are modelled too. Register writes are recorded as a log of `Step`s.
  `FinalValue` reads back what a log leaves in a register.
- **Link-state bookkeeping** (`Link`, `link.dfy`). The class `MxcHdmi` holds `hp_state`,
  `plug_event`, `plug_mask`, `dft_mode_set`, `phy_enabled`, the EDID bytes and
  configuration, the current and saved modes, and what `mxc_hdmi_setup` programmed. Its
  methods are:
  - `mxc_hdmi_phy_init` and `mxc_hdmi_phy_disable`;
  - `mxc_hdmi_setup`, `mxc_hdmi_notify_fb` and `mxc_hdmi_set_mode`;
  - `mxc_hdmi_read_edid` and the cable-connected worker;
  - `mxc_hdmi_cable_connected` and `mxc_hdmi_cable_disconnected`;
  - the hotplug worker with its polarity flip, and the hotplug step of the
    interrupt handler with its debounce delay;
  - the REGISTERED, UNREGISTERED, MODE_CHANGE and BLANK cases of the framebuffer
    event handler `mxc_hdmi_fb_event`.

Two kinds of external behaviour are parameters of the model:

- **Helpers outside the driver.** These are `mxc_edid_mode_to_vic`,
  `mxc_fb_find_nearest_mode`, `fb_find_nearest_mode`, `mxc_edid_fb_mode_is_equal`, the pixel
  clock of a mode and the `mxc_cea_mode` table (`Link.Oracles`, `ModeList.BuildEnv`).
- **Hardware and transport responses.** These are an EDID read (`Edid.RawRead`), the lock
  bit (`locked`) and the I2C status register (`stat`).

Calls the driver makes into the framebuffer core (`fb_blank`, `fb_set_var`,
`hdmi_set_cable_state`) are recorded as `Link.Event`s.

## Model

| member | source | states |
|---|---|---|
| FbMode.Align2 | drivers/video/mxc/mxc_hdmi.c:88 | `ALIGN2(x, 8)` is the largest multiple of 8 not above x: it never rounds up and moves x by less than 8 |
| FbMode.Align2Cases | drivers/video/mxc/mxc_hdmi.c:88 | The macro's two branches are equivalent to rounding down: `ALIGN(x,8)` when x is a multiple of 8, `ALIGN(x,8) - 8` otherwise |
| FbMode.Align2Idempotent | drivers/video/mxc/mxc_hdmi.c:88 | Aligning twice equals aligning once; x is left unchanged exactly when it is a multiple of 8 |
| FbMode.NormaliseAligns | drivers/video/mxc/mxc_hdmi.c:2236-2244 | The in-place rewrite of an admitted entry aligns xres and yres down to multiples of 8 within 8 of the original and keeps refresh, flag and pixel clock |
| FbMode.NormaliseVmode | drivers/video/mxc/mxc_hdmi.c:2236-2241 | An entry without aspect bits gets 4:3 exactly when `yres == (xres*3)/4` (32-bit multiplication, integer division) and 16:9 otherwise; an entry with aspect bits keeps its vmode |
| FbMode.NormaliseKeepsOtherBits | drivers/video/mxc/mxc_hdmi.c:2236-2241 | After normalisation some aspect bit is set, and every vmode bit outside the aspect mask is unchanged |
| FbMode.NormaliseIdempotent | drivers/video/mxc/mxc_hdmi.c:2236-2244 | Normalising an already normalised entry changes nothing |
| FbMode.KeyIgnoresAspect | drivers/video/mxc/mxc_hdmi.c:2179-2195 | The deduplication key ignores aspect bits but tells a fractional mode from its integer-rate twin (the second half relies on FB_VMODE_FRACTIONAL lying inside FB_VMODE_MASK and outside the aspect mask) |
| FbMode.OrKeepsBits | drivers/video/mxc/mxc_hdmi.c:2145-2158 | Or-ing the extra vmode bits of a copy keeps every bit already set and sets every added one |
| FbMode.RefreshPartsFractional | drivers/video/mxc/mxc_hdmi.c:283-287 | For a fractional mode of 1 to 1000 Hz the two printed numbers are refresh - 1 and 1000 - refresh, so that (first × 1000 + second) equals refresh × 999, in 32-bit arithmetic. The second number is printed unpadded, so the text reads as refresh × 0.999 only up to 900 Hz |
| FbMode.RefreshPartsWhole | drivers/video/mxc/mxc_hdmi.c:283-287 | A non-fractional mode prints its refresh with a zero fraction |
| FbMode.RefreshStr24 | drivers/video/mxc/mxc_hdmi.c:283-287 | A fractional 24 Hz mode prints as "23.976Hz" |
| FbMode.RefreshStr30 | drivers/video/mxc/mxc_hdmi.c:283-287 | A fractional 30 Hz mode prints as "29.970Hz" |
| FbMode.RefreshStr60 | drivers/video/mxc/mxc_hdmi.c:283-287 | A fractional 60 Hz mode prints as "59.940Hz" |
| FbMode.Decimal | drivers/video/mxc/mxc_hdmi.c:283-287 | The `%u` rendering is a non-empty string of decimal digits that spells n, with no leading zero |
| FbMode.RefreshStrReadsBack | drivers/video/mxc/mxc_hdmi.c:283-287 | When the text fits the 10-byte buffer, the digits before the point spell the integer part and the digits between the point and "Hz" spell the part after the point |
| Edid.ReadCfg | drivers/video/mxc/mxc_hdmi.c:1944-1950 | On the DDC path, a reader error with modes parsed is forgiven and the sink is treated as DVI (`hdmi_cap` false, the rest kept); otherwise the parsed configuration is kept as read |
| Edid.Classify | drivers/video/mxc/mxc_hdmi.c:1944-1990 | Each outcome holds exactly under its own condition. FAIL: the read errored and was not forgiven. SAME: all 512 bytes unchanged. NO_MODES: no modes parsed. SUCCESS: otherwise |
| Edid.SuccessMeansNewModes | drivers/video/mxc/mxc_hdmi.c:1944-1990 | A SUCCESS read brought modes and new bytes; a SUCCESS despite a reader error reports DVI |
| Edid.Retried | drivers/video/mxc/mxc_hdmi.c:2416-2427 | The retry's outcome replaces the first unless the retry saw the same EDID |
| Edid.RetryKeepsFirstOnSame | drivers/video/mxc/mxc_hdmi.c:2416-2427 | A SAME retry keeps FAIL as FAIL and NO_MODES as NO_MODES, never SAME |
| Edid.NoRetryAfterSuccessOrSame | drivers/video/mxc/mxc_hdmi.c:2416-2418 | A first outcome of SUCCESS or SAME is never retried |
| Edid.OperationFor | drivers/video/mxc/mxc_hdmi.c:1175-1181 | The plain read operation is used exactly for blocks 0 and 1 (segment 0), the extended read for later blocks |
| Edid.EdidAddressSplit | drivers/video/mxc/mxc_hdmi.c:1168-1169 | Segment `blockno/2` and offset `(blockno%2)*0x80 + addr` address byte `blockno*128 + addr`, and both can be recovered from the pair |
| ModeList.AddVideomode | drivers/video/mxc/mxc_hdmi.c:2145-2158 | `mxc_fb_add_videomode` appends one copy of the source with the new flag and the extra vmode bits or-ed in |
| ModeList.CheckExisting | drivers/video/mxc/mxc_hdmi.c:2179-2195 | The list walk reports a match exactly when some entry has the same xres, yres, refresh and key vmode |
| ModeList.StereoVicsInRange | drivers/video/mxc/mxc_hdmi.c:2160-2177 | Every VIC of the mandatory table indexes `mxc_cea_mode` |
| ModeList.AddMandatory3d | drivers/video/mxc/mxc_hdmi.c:2258-2263 | The loop over `stereo_mandatory_modes` appends exactly the mandatory copies of the VIC |
| ModeList.AddFormat3d | drivers/video/mxc/mxc_hdmi.c:2277-2289 | The loop over the VSDB 3D list appends exactly the copies asked for the nvic-th VIC |
| ModeList.AddStructAll3d | drivers/video/mxc/mxc_hdmi.c:2267-2274 | The 3D_Structure_ALL tests append, in that order, the frame-packing (bit 0), side-by-side-full (bit 3), top-and-bottom (bit 6) and side-by-side-half (bit 8) copies; the source tests mask 0x6 for side-by-side full (see Findings) |
| ModeList.StructAllSingle | drivers/video/mxc/mxc_hdmi.c:2267-2289 | With bit 3 for side-by-side full, a 3D_Structure_ALL announcing one known structure s alone adds exactly the copy a per-VIC entry with structure code s adds |
| ModeList.StructAllAsWrittenMissesSbsFull | drivers/video/mxc/mxc_hdmi.c:2269-2270 | As written (mask 0x6), 3D_Structure_ALL 0x8 (side-by-side full only) adds no side-by-side-full copy and 0x2 (field alternative only) adds one; the corrected test does the opposite |
| ModeList.TestBitPow2 | drivers/video/mxc/mxc_hdmi.c:2267-2273 | The value 2^s has bit s set and no other bit |
| ModeList.Add3dCopies | drivers/video/mxc/mxc_hdmi.c:2257-2289 | All stereoscopic copies of a new entry are appended: mandatory, then 3D_Structure_ALL when `hdmi_3d_multi_present` applies, then the per-VIC list |
| ModeList.VisitEntry | drivers/video/mxc/mxc_hdmi.c:2211-2290 | One inner-loop iteration leaves the list, the database and the VIC counter as the specification `Visit` says |
| ModeList.AddNewEntry | drivers/video/mxc/mxc_hdmi.c:2246-2289 | A normalised entry whose key is already in the list leaves the list as it was; otherwise the entry is appended, followed by exactly its fractional and stereoscopic copies |
| ModeList.RunPass | drivers/video/mxc/mxc_hdmi.c:2211-2290 | One pass over the whole database takes the state from the start of pass k to the state `BuildUpTo` gives at the end of pass k |
| ModeList.RebuildModelist | drivers/video/mxc/mxc_hdmi.c:2197-2297 | The in-place four-pass rebuild leaves the list and the rewritten database equal to `Rebuild` of the original database (with side-by-side full tested at bit 3 of 3D_Structure_ALL, see Findings) |
| ModeList.PassMasksSentinel | drivers/video/mxc/mxc_hdmi.c:2201 | Exactly four masks run before the 0 sentinel |
| ModeList.AdmissionRules | drivers/video/mxc/mxc_hdmi.c:2219-2234 | Admission rules. Any sink: entries without xres or refresh are dropped. HDMI sink: VESA entries, and vic-0 entries with a non-zero flag lacking DETAILED, are also dropped. Per pass: pass 0 takes FIRST, pass 1 takes entries with some flag bit other than FIRST and DETAILED, pass 2 takes DETAILED, pass 3 takes all. A DVI sink ignores the masks |
| ModeList.VisitSpec | drivers/video/mxc/mxc_hdmi.c:2211-2290 | One visit only appends. It appends exactly when the entry is admitted and its normalised key is new. The new entry comes first, followed only by fractional or 3D copies. nvic counts every entry with a VIC that passed the mask, and only admitted entries are rewritten |
| ModeList.FractCopiesShape | drivers/video/mxc/mxc_hdmi.c:2251-2252 | At most one fractional copy is made, and only with a VIC, `enable_fract` and refresh 24/30/60; it keeps refresh and flag and gains FB_VMODE_FRACTIONAL |
| ModeList.MandatoryCopiesTable | drivers/video/mxc/mxc_hdmi.c:2160-2177 | VIC 4, 19 and 32 get top-and-bottom then frame-packing copies of `mxc_cea_mode[vic]`; VIC 5 and 20 get side-by-side half; all others get none |
| ModeList.MandatoryCopiesAre3d | drivers/video/mxc/mxc_hdmi.c:2261-2262 | Every mandatory copy is flagged FB_MODE_IS_3D |
| ModeList.FormatCopiesAre3d | drivers/video/mxc/mxc_hdmi.c:2277-2289 | Every per-VIC 3D copy is flagged FB_MODE_IS_3D |
| ModeList.Copies3dAre3d | drivers/video/mxc/mxc_hdmi.c:2254-2289 | Every stereoscopic copy is flagged FB_MODE_IS_3D, and none are made unless `enable_3d` and `hdmi_3d_present` |
| ModeList.ExtrasShape | drivers/video/mxc/mxc_hdmi.c:2251-2289 | After a new entry come at most one fractional copy (first, and only with a VIC) and then only 3D copies |
| ModeList.VisitKeepsInvariant | drivers/video/mxc/mxc_hdmi.c:2211-2290 | Each visit preserves the rebuild invariant: VGA first, each database entry original or normalised, every later entry a new base or a copy |
| ModeList.BuildUpToInvariant | drivers/video/mxc/mxc_hdmi.c:2207-2292 | The invariant holds after every prefix of every pass |
| ModeList.RebuildShape | drivers/video/mxc/mxc_hdmi.c:2207-2292 | The rebuilt list starts with 640x480 VGA. Every later entry is a normalised EDID entry whose key no earlier entry has, or a fractional copy, or a 3D copy made under its switch. Each database entry ends original or normalised |
| ModeList.RebuildBasesAreDeduplicated | drivers/video/mxc/mxc_hdmi.c:2236-2247 | An entry that is neither fractional nor 3D is a normalised EDID entry whose key appears nowhere earlier |
| ModeList.RebuildWithoutCopiesIsDistinct | drivers/video/mxc/mxc_hdmi.c:2207-2292 | With fractional and 3D copies off, no two entries of the rebuilt list share a key and every entry after VGA comes from the EDID |
| ModeList.StandardHasBit | drivers/video/mxc/mxc_hdmi.c:2325-2328 | A default-list CEA entry keeps its width and gains FB_MODE_IS_STANDARD |
| ModeList.DefaultModelist | drivers/video/mxc/mxc_hdmi.c:2305-2335 | The default list is the current mode followed by `StandardCeaModes` of the CEA table |
| ModeList.StandardCeaModesSpec | drivers/video/mxc/mxc_hdmi.c:2323-2330 | The default entries correspond one to one, in table order, to the CEA modes with a non-zero width: entry p is the p-th such mode marked FB_MODE_IS_STANDARD, every entry comes from such a mode and every such mode gives an entry |
| ModeList.WidthIndicesSpec | drivers/video/mxc/mxc_hdmi.c:2323-2330 | The indices the default list draws from are strictly increasing, in range, all have a non-zero width, and every CEA index with a non-zero width is among them |
| ModeList.StandardCeaModesAt | drivers/video/mxc/mxc_hdmi.c:2323-2330 | The p-th default entry is the standard-marked copy of the CEA mode at the p-th non-zero-width index |
| Video.GetRgbQuantRange | drivers/video/mxc/mxc_hdmi.c:647-654 | Never AUTO: an explicit setting wins; in auto mode the range is FULL exactly when the sink's range is selectable, DEFAULT otherwise |
| Video.ConversionRelations | drivers/video/mxc/mxc_hdmi.c:656-681 | Decimation and interpolation exclude each other and each implies a conversion; a same-format non-RGB path never converts; RGB to RGB converts exactly for LIMITED, or DEFAULT with vic > 1 |
| Video.AutoRangeConversion | drivers/video/mxc/mxc_hdmi.c:647-664 | In auto mode an RGB path converts exactly when the sink's range is not selectable and vic > 1 |
| Video.CoeffTable | drivers/video/mxc/mxc_hdmi.c:683-805 | Every coefficient table is 3 rows of 4 |
| Video.CscChoiceCases | drivers/video/mxc/mxc_hdmi.c:683-805 | Identity exactly without conversion or with no RGB side. Range compression exactly for RGB to RGB. Otherwise the colorimetry's table in the direction of the conversion. Scale 0 exactly for RGB to YCbCr |
| Video.IdentityTable | drivers/video/mxc/mxc_hdmi.c:787-804 | The fallback is 0x2000 on the diagonal, 0 elsewhere, scale 1 |
| Video.CscRegisterBytesDecode | drivers/video/mxc/mxc_hdmi.c:807-857 | Every coefficient fits 16 bits and its LSB and MSB register bytes decode back to it |
| Video.SetRow | drivers/video/mxc/mxc_hdmi.c:683-805 | Writing one row changes that row of the 3x4 array and nothing else |
| Video.UpdateCscCoeffs | drivers/video/mxc/mxc_hdmi.c:683-805 | The array ends holding the table `CscChoice` selects, and the returned scale is that table's |
| Video.VideoCsc | drivers/video/mxc/mxc_hdmi.c:865-903 | The CSC is configured only for depths 8, 10, 12 and 16, with 3×depth bits per pixel. Interpolation and decimation are set exactly when the format pair calls for them, never both |
| Video.DataMapInjective | drivers/video/mxc/mxc_hdmi.c:591-627 | Distinct (format, depth) pairs with a non-zero `hdmi_datamap` code get distinct codes |
| Video.DataMapFields | drivers/video/mxc/mxc_hdmi.c:109-121 | For RGB and YCbCr 4:4:4, bit 3 of the code names YCbCr and bits 1-2 the depth (8, 10, 12, 16) |
| Video.PacketizerRules | drivers/video/mxc/mxc_hdmi.c:904-943 | The packetiser selector. 8-bit RGB and YCbCr 4:4:4 are bypassed with 16-bit remap. Only YCbCr 4:2:2 8-bit uses the YCC422 path. 4:2:2 16-bit and xvYCC outputs are not configured |
| Video.SetupPipeline | drivers/video/mxc/mxc_hdmi.c:2729-2800 | Setup programs RGB input at 8 bits, so the data map is RGB444_8B. YCbCr goes out only to an HDMI sink that declares it and without `rgb_out_enable`. Such output uses the RGB-to-YCbCr table of the VIC's colorimetry at scale 0; RGB output is range-compressed or unchanged |
| Video.AviDecodes | drivers/video/mxc/mxc_hdmi.c:1629-1698 | The AVI fields can be read back. Y names the YCbCr encodings. C is 0 exactly for RGB and 3 exactly for xvYCC, and C with EC recovers the colorimetry. M and R agree on 16:9. S encodes underscan, and the input repetition is stored plus one |
| Video.Structure3dRoundTrip | drivers/video/mxc/mxc_hdmi.c:1537-1551 | The layout-to-3D_Structure map inverts the builder's structure-to-layout map for the four known structures and gives -1 otherwise |
| Video.ComposerTotals | drivers/video/mxc/mxc_hdmi.c:1799-1830 | Active plus blanking is the full line. For progressive modes it is the full frame. Interlaced fields carry half the active lines and half the blanking, rounded down. The sync lies inside the blanking |
| Video.Split16RoundTrip | drivers/video/mxc/mxc_hdmi.c:1800-1830 | A value below 65536 survives its low-byte/high-byte register pair |
| Phy.PollBounded | drivers/video/mxc/mxc_hdmi.c:1489-1498 | A poll with budget b reads at most b+1 times. It succeeds exactly when some read up to b sees ready, and then stops at the first such read |
| Phy.PhyWaitI2cDone | drivers/video/mxc/mxc_hdmi.c:1094-1105 | The PHY I2C wait succeeds exactly when one of its msec+1 reads shows a done or error bit (mask 0x3) |
| Phy.EdidWaitI2cDone | drivers/video/mxc/mxc_hdmi.c:1148-1163 | The EDID I2C wait succeeds exactly when one of its msec+1 reads shows the done bit (mask 0x2) |
| Phy.Configure | drivers/video/mxc/mxc_hdmi.c:1242-1501 | The writes are those of `ConfigureSteps`. It returns true exactly when the sequence reaches the lock poll and one of the 5 lock reads sees the lock. It polls only when the sequence reaches the poll |
| Phy.ConfigureGuards | drivers/video/mxc/mxc_hdmi.c:1250-1257 | A pixel repetition, or a colour resolution other than 0, 8 or 12, is refused before any write |
| Phy.ConfigureReachesLock | drivers/video/mxc/mxc_hdmi.c:1250-1447 | The lock poll is reached exactly when there is no repetition and either 8-bit (or 0) colour up to 216 MHz or 12-bit colour up to 45.25 MHz |
| Phy.TwelveBitFallThrough | drivers/video/mxc/mxc_hdmi.c:1308-1355 | 12-bit colour above 45.25 MHz fails after writing its range's MPLL pair, because of the missing `break`s |
| Phy.FinalValueAppend | drivers/video/mxc/mxc_hdmi.c:1107-1120 | In a concatenated write log the last write to a register wins |
| Phy.FinalValueWrite | drivers/video/mxc/mxc_hdmi.c:1107-1120 | A write sets its own register and leaves the others as they were |
| Phy.ConfigureRegisters | drivers/video/mxc/mxc_hdmi.c:1449-1487 | A sequence that reaches the lock starts with the flow control and ends powered up. CKSYMTXCTRL and VLEVCTRL get the high-clock values above 148.5 MHz, else valid board overrides, else defaults. TXTERM gets the board value when at most 7, else 5. The current control is the table's and CKCALCTRL is 0x8000 |
| Phy.TailRegisters | drivers/video/mxc/mxc_hdmi.c:1449-1487 | The settings after the current control leave the four registers with those values |
| Phy.TailLeavesCurrCtrl | drivers/video/mxc/mxc_hdmi.c:1449-1487 | The tail never writes the current-control register |
| Link.ModeAction | drivers/video/mxc/mxc_hdmi.c:2357-2390 | Five cases, each exactly under its own condition. No nearest mode: nothing. Same mode, same EDID: setup. Same mode, changed EDID: notify with the saved mode. New mode, changed EDID: notify with the new mode. New mode, same EDID: neither |
| Link.DebounceMs | drivers/video/mxc/mxc_hdmi.c:2668-2673 | The jitter timer waits 100 ms before the default mode is set and one second (HZ) after; `HotplugIrq` returns this delay whenever it arms the timer |
| Link.PolarityFlips | drivers/video/mxc/mxc_hdmi.c:2555-2558 | The written polarity sets a bit exactly when it is listened for and was clear, so an HDMI sink's next event is the opposite plug event |
| Link.DispatchCfg | drivers/video/mxc/mxc_hdmi.c:2430-2444 | FAIL sets `hdmi_cap`; the other outcomes keep the configuration |
| Link.WorkerOutcome | drivers/video/mxc/mxc_hdmi.c:2411-2451 | Ignoring EDID gives FAIL. The result is SAME exactly when the first read was SAME. FAIL always ends as an HDMI sink. A first SUCCESS stays SUCCESS with the read's configuration |
| Link.StoredEdidDecidesNextSame | drivers/video/mxc/mxc_hdmi.c:1940-1982 | The bytes a worker run stores are what the next run's SAME test compares against: a next read bringing them again without error is SAME and is not retried; ignoring EDID stores nothing new |
| Link.Rearmed | drivers/video/mxc/mxc_hdmi.c:2587-2593 | The worker unmasks the listened-for bits and unmutes the event, leaving the other mask bits and the polarity |
| Link.Muted | drivers/video/mxc/mxc_hdmi.c:2655-2662 | The interrupt sets the listened-for mask bits and mute bits, leaving the polarity |
| Link.RearmUndoesMute | drivers/video/mxc/mxc_hdmi.c:2587-2593 | The worker's re-arm undoes the interrupt's mute whatever polarity it writes: the listened-for mask bits end clear, the other mask bits are as before the interrupt, and the event is unmuted |
| Link.NotifiesExactlyOnNewEdid | drivers/video/mxc/mxc_hdmi.c:2364-2398 | Every path through `set_mode` that finds a mode unblanks first and reports the cable plugged last. It calls `fb_set_var` exactly when the EDID changed, with the saved mode when the mode is the same and the nearest mode otherwise. With an unchanged EDID the current mode becomes the saved one on a match and is kept otherwise |
| Link.MxcHdmi.PhyInit | drivers/video/mxc/mxc_hdmi.c:1503-1535 | Gated when the framebuffer is not registered, the cable is out or the display is blanked. Otherwise two rounds of power-down plus configure (8 bits, no repetition, CSC on for an HDMI conversion) run, and `phy_enabled` is set even if the lock never came |
| Link.MxcHdmi.PhyDisable | drivers/video/mxc/mxc_hdmi.c:1993-2014 | Only an enabled PHY is shut down, with overflow interrupts off; otherwise nothing changes |
| Link.MxcHdmi.ChooseVic | drivers/video/mxc/mxc_hdmi.c:2702-2716 | Unless VGA is being requested, the current mode is saved as the last non-VGA mode and the VIC is that of its nearest list entry; otherwise the VIC is 0 |
| Link.MxcHdmi.ProgramLink | drivers/video/mxc/mxc_hdmi.c:2718-2771 | DVI mode is selected unless the sink is HDMI or has no EDID; the format choices are `SetupParams` of the VIC, the sink and the EDID; the composer and pixel clock follow the current mode. Nothing else changes |
| Link.MxcHdmi.ProgramStream | drivers/video/mxc/mxc_hdmi.c:2777-2797 | The AVI InfoFrame is sent only to an HDMI sink; the packetiser, the CSC configuration, the CSC coefficients and scale and the sampler data map follow the chosen formats; overflow interrupts end up enabled exactly for an HDMI sink; PHY, composer and pixel clock are untouched |
| Link.MxcHdmi.Setup | drivers/video/mxc/mxc_hdmi.c:2691-2802 | The state after setup is `SetUp` of the state before: VIC and saved mode from `ChooseVic`; DVI mode unless HDMI or no-EDID; the format choices of `SetupParams`; composer and pixel clock; two PHY rounds unless gated; the AVI InfoFrame only for an HDMI sink; packetiser, CSC table and scale, data map; overflow interrupts exactly for HDMI. Link, EDID, mode list and events are untouched |
| Link.MxcHdmi.NotifyFb | drivers/video/mxc/mxc_hdmi.c:2098-2122 | The PHY is disabled before the framebuffer core is asked to apply the current mode |
| Link.MxcHdmi.ApplyMode | drivers/video/mxc/mxc_hdmi.c:2364-2398 | The branch taken is `ModeAction` of the lookup. The events are the unblank, then the notification that branch makes (`fb_set_var` with the saved or the nearest mode, or none), then the cable-plugged report. The current mode ends as `ModeAfter` says. The setup branch ends in `SetUp`; the notify branches shut the PHY down and leave the video state; the keep branch changes neither |
| Link.MxcHdmi.Act | drivers/video/mxc/mxc_hdmi.c:2368-2390 | The if-chain of `set_mode`: the branch is `ModeAction`, the events it adds are its `fb_set_var` notification only, and the state after each branch is as for `ApplyMode` |
| Link.MxcHdmi.SetupPrevious | drivers/video/mxc/mxc_hdmi.c:2368-2375 | Same mode and same EDID: the saved non-VGA mode becomes current and the state is `SetUp` of the state before, with link, EDID, mode flags and events untouched |
| Link.MxcHdmi.NotifyMode | drivers/video/mxc/mxc_hdmi.c:2376-2389 | The given mode becomes current and exactly one `FbSetVar` event with that mode is logged. An enabled PHY is shut down first; the video programming is left as it was |
| Link.MxcHdmi.SetMode | drivers/video/mxc/mxc_hdmi.c:2337-2400 | The first call requests the default mode, latches `dft_mode_set` and stops requesting VGA; later calls request the saved mode. The branch is `ModeAction` of the nearest-mode lookup of that request. With a nearest mode the events and the current mode are `ModeEvents` and `ModeAfter` of that branch and the setup branch ends in `SetUp`. With no nearest mode nothing else changes |
| Link.MxcHdmi.ReadEdid | drivers/video/mxc/mxc_hdmi.c:1932-1990 | The bytes and configuration are replaced by the read's, the mode database is the parsed one, and the status is `Classify` against the previous bytes |
| Link.MxcHdmi.ReadPhase | drivers/video/mxc/mxc_hdmi.c:2410-2427 | Step C of the worker: FAIL without reading when EDID is ignored, otherwise one read and a retry after FAIL or NO_MODES, as `WorkerStatus` says. The stored EDID bytes and configuration are the last read's (`ReadsEdid`, `ReadsCfg`), and after SUCCESS the database is that read's |
| Link.MxcHdmi.Dispatch | drivers/video/mxc/mxc_hdmi.c:2429-2444 | SUCCESS rebuilds the list, SAME keeps it, FAIL sets `hdmi_cap` and builds the default list, NO_MODES builds the default list |
| Link.MxcHdmi.ConnectedWorker | drivers/video/mxc/mxc_hdmi.c:2402-2461 | Status and configuration follow `WorkerStatus` and `DispatchCfg`, and the stored EDID bytes are the last read's. `hp_state`, `plug_event` and `plug_mask` follow `hdmi_cap`, so FAIL ends CONNECTED_HDMI. SUCCESS rebuilds the list from the database of the read that decided (the retry's when there was one), SAME keeps the list, FAIL and NO_MODES give the default list. `set_mode` then runs as `SetMode` says: branch, events, current mode, `requesting_vga`, and per branch the video and PHY state (kept, shut down or `SetUp`). `fb_reg`, `blank` and the HPD registers are unchanged |
| Link.MxcHdmi.Connect | drivers/video/mxc/mxc_hdmi.c:2410-2451 | Steps C to G of the worker: read, dispatch on the status, then `hp_state`, `plug_event` and `plug_mask` from `hdmi_cap`; the stored EDID bytes are the last read's; modes, video, PHY and events untouched |
| Link.MxcHdmi.ReadAndDispatch | drivers/video/mxc/mxc_hdmi.c:2410-2446 | The EDID read with its retry, then the list built for the final status; the stored EDID bytes are the last read's; nothing of the link state changes |
| Link.MxcHdmi.FollowCap | drivers/video/mxc/mxc_hdmi.c:2449-2451 | An HDMI sink gives CONNECTED_HDMI with the HDMI event and mask bits, any other gives CONNECTED_DVI with the DVI bits |
| Link.MxcHdmi.CableConnected | drivers/video/mxc/mxc_hdmi.c:2474-2490 | The state becomes CONNECTED_NO_EDID and the worker is scheduled unless an EDID file is pending after the default mode was set |
| Link.MxcHdmi.CableDisconnected | drivers/video/mxc/mxc_hdmi.c:2512-2535 | The PHY is disabled, overflow interrupts are off, the display is powered down and the state is DISCONNECTED |
| Link.MxcHdmi.HotplugWorker | drivers/video/mxc/mxc_hdmi.c:2537-2600 | The polarity is flipped. A plug-in runs the connect path. A plug-out reports the cable unplugged, then runs the disconnect path: an enabled PHY is shut down, overflow interrupts are off, the display is powered down. Finally the HPD bits are unmasked and the event unmuted. `fb_reg` and `blank` are unchanged |
| Link.MxcHdmi.HotplugIrq | drivers/video/mxc/mxc_hdmi.c:2648-2673 | A status with a listened-for event bit mutes the event and masks the HPD bits (`Muted`) and, once initialised, arms the timer with `DebounceMs`; any other status changes nothing and arms nothing |
| Link.MxcHdmi.FbRegistered | drivers/video/mxc/mxc_hdmi.c:2804-2837 | On the first registration only the display is powered down, the HPD bits are unmasked, the event unmuted and the framebuffer marked registered; a repeat registration changes nothing else |
| Link.MxcHdmi.FbUnregistered | drivers/video/mxc/mxc_hdmi.c:2855-2859 | The framebuffer no longer counts as registered |
| Link.MxcHdmi.FbModeChange | drivers/video/mxc/mxc_hdmi.c:2861-2865 | A mode change is set up (`SetUp`) only once the framebuffer is registered; before that nothing changes |
| Link.MxcHdmi.FbBlankEvent | drivers/video/mxc/mxc_hdmi.c:2867-2920 | Ignored while unregistered, unplugged or at the same level. Unblank records the level, re-arms the HPD bits and sets up again when the core's state allows. Any other new level shuts the PHY down, for a DVI sink mutes the HPD interrupt and selects DVI mode, and records the level |
| Link.MxcHdmi.Unblank | drivers/video/mxc/mxc_hdmi.c:2874-2891 | The unblank branch: level recorded, HPD re-armed (`Rearmed`), and `SetUp` when the core reports a usable state, no video change otherwise |
| Link.MxcHdmi.Rearm | drivers/video/mxc/mxc_hdmi.c:2879-2887 | The level is recorded and the HPD mask and mute follow `Rearmed` |
| Link.MxcHdmi.BlankOff | drivers/video/mxc/mxc_hdmi.c:2893-2915 | The blank branch: PHY shut down; for a DVI sink only, the HPD interrupt muted (`Muted`) and DVI mode selected; the level recorded |

## Findings

| source | as written | input that shows it | evidently intended | confidence | as-written member | corrected member |
|---|---|---|---|---|---|---|
| drivers/video/mxc/mxc_hdmi.c:2269 | The 3D_Structure_ALL test for side-by-side full uses mask 0x6, bits 1 and 2 (field alternative, line alternative) | `hdmi_3d_multi_present` 2 with the VIC's bit set in 3D_MASK_ALL and 3D_Structure_ALL 0x8 (side-by-side full only): no side-by-side-full copy is added; 0x2 (field alternative only) adds one | Bit 3 (mask 0x8), the bit of 3D_Structure_ALL for side-by-side full in section 8.3.2 of HDMI 1.4a, matching the structure code 3 that the per-VIC list maps to side-by-side full | not executed | ModeList.StructAllAsWrittenMissesSbsFull | ModeList.StructAllSingle |

## Left out

- Interrupt and scheduling machinery (the jitter timer itself, work queues, `hdcp_hdp_worker`, the spinlock and the mutex) is concurrency. Only the sequential state changes are modelled. `Link.MxcHdmi.HotplugIrq` models the hotplug step of `mxc_hdmi_hotplug` (mute, mask, timer delay). Its other parts are left out: the overflow and HDCP checks, the clearing of the interrupt status (a write-one-to-clear register), and `latest_intr_stat`, which only the debug output reads.
- EDID transport and parsing are foreign calls and are left out: `mxc_edid_read`, `mxc_edid_read_internal`'s I2C sequence, and the parsers. One read is the parameter `Edid.RawRead`. The multi-block loop of `mxc_edid_read_internal` is not modelled.
- The framebuffer core, `mxc_edid_mode_to_vic`, `mxc_fb_find_nearest_mode`, `fb_find_nearest_mode`, `mxc_edid_fb_mode_is_equal` and `mxcPICOS2KHZ` are outside the driver. They are parameters. So "each mandatory 3D mode appears once" cannot be stated: it depends on `mxc_edid_mode_to_vic`.
- ModeList.AddVideomode: `fb_add_videomode` is modelled as a plain append. Its own duplicate check and its allocation failure are not part of this model.
- ModeList.RebuildModelist: rebuilding twice is not idempotent as written. An EDID entry with xres 1 to 7 aligns to 0 and is dropped when the rewritten database is rebuilt. So no idempotence lemma is stated.
- The vmode and flag bits specific to this kernel tree (aspect, fractional, 3D layouts, FB_MODE_IS_3D) are defined in headers that are not part of this model. They are distinct single-bit stand-ins. The HDMI register header is missing too, so HDMI_DVI_STAT and HDMI_DVI_IH_STAT are stand-ins. The proofs rely on these values only through how the aspect and fractional bits sit in the masks. The normalisation lemmas (`FbMode.NormaliseKeepsOtherBits`, `FbMode.NormaliseIdempotent`) rely on the inferred aspect bits lying inside FB_VMODE_ASPECT_MASK. The second clause of `FbMode.KeyIgnoresAspect` relies on the aspect mask lying inside FB_VMODE_MASK, and on FB_VMODE_FRACTIONAL lying inside FB_VMODE_MASK but outside the aspect mask. No proof relies on the values of the 3D layout bits, FB_MODE_IS_3D or the two DVI stand-ins.
- Link.MxcHdmi.NotifyFb: `fb_set_var` and `fb_blank` call back into the driver's framebuffer event handler: `fb_set_var` runs `mxc_hdmi_setup`, and `fb_blank` (from `set_mode`'s unblank, source 2365, and `mxc_hdmi_cable_disconnected`'s power-down, source 2531) runs the FB_EVENT_BLANK case, which updates `blank`. Here both calls are recorded as events and the callbacks are not replayed, so `Link.MxcHdmi.CableDisconnected` keeps `blank` where the driver would set it to POWERDOWN. Of the event handler `mxc_hdmi_fb_event`, REGISTERED, UNREGISTERED, MODE_CHANGE and BLANK are modelled (`FbRegistered`, `FbUnregistered`, `FbModeChange`, `FbBlankEvent`). SUSPEND and RESUME are left out. So are the framebuffer-id filter, `hdmi_set_registered`, `hdmi_set_blank_state`, and `mxc_hdmi_abort_stream`, which hand state to the audio and core drivers. `check_hdmi_state` is the parameter `stateOk`.
- Link.MxcHdmi.Setup: the update of `fbi->mode` is not modelled. A nearest-mode lookup that finds nothing gives VIC 0 here, whereas the driver passes NULL to `mxc_edid_mode_to_vic`. `mxc_hdmi_enable_video_path` (2016, called at 2777), the audio clock and the overflow clear are register plumbing.
- Link.MxcHdmi.PhyInit: the four per-round pin writes (data-enable polarity, interface control, TMDS and power off) are logged as one `PowerDown` step.
- Phy.Configure: the result of the per-write PHY I2C wait is ignored by the driver and is not modelled. Each write is one log entry, and `udelay`/`msleep` become loop counts.
- Link.MxcHdmi.CableDisconnected: the FB_EVENT_BLANK callback of its `fb_blank` call is not replayed, so its contract keeps `blank`, the HPD registers and the DVI-mode flag where the driver's callback (a connected, registered sink at another level) would record POWERDOWN, shut the PHY down a second time and, for a DVI sink, mute the HPD interrupt. `Link.MxcHdmi.SetMode` likewise does not replay the unblank callback of its `fb_blank` call. Composing them with `FbBlankEvent` gives those effects.
- Link.MxcHdmi.HotplugWorker: the uevents, the stream abort, CEC notifications and the overflow check at the end are left out.
- Link.MxcHdmi.ConnectedWorker: the hand-off of the EDID configuration to the audio driver (`hdmi_set_edid_cfg`) is left out.
- The HDMI vendor InfoFrame packing, sysfs attributes, ioctl, module parameters, probe, init and deinit are user-interface plumbing and resource setup. HDCP clock toggling and CEC are left out too.
- ModeList.MultiApplies: the source shifts `1 << (nvic-1)`. That shift is undefined in C at nvic 0, which a DETAILED entry without a VIC reaches when it comes before every entry with a VIC. It is also undefined for nvic - 1 >= 32. The model treats nvic 0 as "not selected" and tests bit nvic - 1 of the unbounded mask.
- Integer widths: the clock and register values are bounded by `u16`/`u32` subset types where the source's width matters. The module's own counters are unbounded.
