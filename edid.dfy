/**
 * EDID acquisition: the capability record the parsers hand back, the way
 * mxc_hdmi_read_edid classifies one read, the single-retry policy of the
 * cable-connected worker, and the segment/offset split used to address one
 * EDID byte over the transmitter's own I2C master.
 */
module Edid {
  import opened FbMode

  const HDMI_EDID_LEN: nat := 512

  type byte = b: int | 0 <= b < 256

  /** The 512 bytes the driver keeps of the last EDID read. */
  type EdidBytes = s: seq<byte> | |s| == HDMI_EDID_LEN witness seq(HDMI_EDID_LEN, _ => 0)

  /** One entry of the HDMI VSDB 3D list: the 2D VIC position it refers to and its 3D_Structure. */
  datatype Format3d = Format3d(vicOrder2d: nat, struct3d: nat)

  /** The part of struct mxc_edid_cfg the driver reads. */
  datatype EdidCfg = EdidCfg(
    hdmiCap: bool,
    ceaUnderscan: bool,
    ceaYcbcr444: bool,
    ceaYcbcr422: bool,
    ceaRgbRangeSelectable: bool,
    hdmi3dPresent: bool,
    hdmi3dMultiPresent: nat,
    hdmi3dStructAll: nat,
    hdmi3dMaskAll: nat,
    hdmi3dFormats: seq<Format3d>)

  /** The four results of mxc_hdmi_read_edid (HDMI_EDID_*). */
  datatype EdidStatus = Success | Fail | Same | NoModes

  /**
   * What one call of the EDID reader and parsers leaves behind: whether the
   * transmitter's internal I2C master was used (hdcp_init) instead of the DDC
   * adapter, whether the reader reported an error, the 512 EDID bytes, the
   * parsed configuration and the parsed mode database (fbi->monspecs.modedb).
   */
  datatype RawRead = RawRead(internal: bool, failed: bool, edid: EdidBytes, cfg: EdidCfg, modedb: seq<Mode>)

  /**
   * Only on the DDC path, an error from the reader is forgiven when the
   * parsers still produced modes; the sink is then treated as DVI.
   */
  predicate Forgiven(r: RawRead)
  {
    !r.internal && r.failed && |r.modedb| > 0
  }

  /**
   * The configuration the driver keeps after the read. A reference definition:
   * its two ensures only split the `if`, and Classify and the worker use it.
   */
  function ReadCfg(r: RawRead): (c: EdidCfg)
    ensures Forgiven(r) ==> !c.hdmiCap && c == r.cfg.(hdmiCap := false)
    ensures !Forgiven(r) ==> c == r.cfg
  {
    if Forgiven(r) then r.cfg.(hdmiCap := false) else r.cfg
  }

  /**
   * The classification at the end of mxc_hdmi_read_edid, given the EDID
   * bytes held before the read: each outcome exactly under its own condition
   * on the raw read.
   */
  function Classify(previous: EdidBytes, r: RawRead): (s: EdidStatus)
    ensures s == Fail <==> r.failed && (r.internal || |r.modedb| == 0)
    ensures s == Same <==> (!r.failed || Forgiven(r)) && previous == r.edid
    ensures s == NoModes <==> !r.failed && previous != r.edid && |r.modedb| == 0
    ensures s == Success <==> (!r.failed || !r.internal) && previous != r.edid && |r.modedb| > 0
  {
    if r.failed && !Forgiven(r) then Fail
    else if previous == r.edid then Same
    else if |r.modedb| == 0 then NoModes
    else Success
  }

  /** A read that reports Success always brought modes and new bytes; a forgiven error reports DVI. */
  lemma SuccessMeansNewModes(previous: EdidBytes, r: RawRead)
    requires Classify(previous, r) == Success
    ensures |r.modedb| > 0 && r.edid != previous
    ensures r.failed ==> !ReadCfg(r).hdmiCap
  {
  }

  /** Whether the worker reads a second time, given the first outcome. */
  predicate Retries(ignoreEdid: bool, first: EdidStatus)
  {
    !ignoreEdid && (first == NoModes || first == Fail)
  }

  /**
   * The worker's final status: the retry replaces the first outcome unless the
   * retry saw the same EDID. A reference definition whose ensures only split
   * the `if`; RetryKeepsFirstOnSame and the worker build on it.
   */
  function Retried(first: EdidStatus, retry: EdidStatus): (s: EdidStatus)
    ensures retry == Same ==> s == first
    ensures retry != Same ==> s == retry
  {
    if retry != Same then retry else first
  }

  /** NoModes followed by Same stays NoModes; Fail followed by Same stays Fail. */
  lemma RetryKeepsFirstOnSame(first: EdidStatus)
    requires first == NoModes || first == Fail
    ensures Retried(first, Same) == first
    ensures Retried(first, Same) != Same
  {
  }

  /** A worker whose first read saw Success or Same never reads again. */
  lemma NoRetryAfterSuccessOrSame(ignoreEdid: bool, first: EdidStatus)
    requires first == Success || first == Same
    ensures !Retries(ignoreEdid, first)
  {
  }

  /**
   * hdmi_edid_i2c_read: EDID block `blockno` is reached through segment
   * pointer blockno / 2 and word offset (blockno % 2) * 0x80 + addr, the
   * offset kept to 8 bits.
   */
  function Segment(blockno: byte): byte
  {
    blockno / 2
  }

  /** The I2C master operation: a plain read in segment 0, an extended (segmented) read otherwise. */
  datatype I2cOperation = Read | ReadExt

  function OperationFor(blockno: byte): (op: I2cOperation)
    ensures op == Read <==> blockno < 2
  {
    if Segment(blockno) == 0 then Read else ReadExt
  }

  function Offset(addr: byte, blockno: byte): byte
  {
    ((blockno % 2) * 0x80 + addr) % 256
  }

  /** Each block is 128 bytes and a segment holds two: segment and offset name byte blockno * 128 + addr. */
  lemma {:induction false} EdidAddressSplit(addr: byte, blockno: byte)
    requires addr < 0x80
    ensures Segment(blockno) * 256 + Offset(addr, blockno) == blockno * 128 + addr
    ensures Offset(addr, blockno) / 0x80 == blockno % 2 && Offset(addr, blockno) % 0x80 == addr
    ensures 2 * Segment(blockno) + Offset(addr, blockno) / 0x80 == blockno
  {
    var h := blockno % 2;
    assert blockno == 2 * (blockno / 2) + h;
    assert Offset(addr, blockno) == h * 0x80 + addr;
  }
}
