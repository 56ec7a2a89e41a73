/** H.264 sequence parameter sets: what sps_parse_dimension_h264 computes, the syntax of
    sections 7.3.2.1.1, E.1.1 and E.1.2 of ITU-T H.264, and the proof that they fit. */
module SpsH264 {
  import opened SpsBits
  import opened SpsSyntax

  /** What a parse ends in.  Undefined: see SpsSyntax.R.  Rejected: the C function returns false. */
  datatype Parsed = Undefined | Rejected | Size(width: nat, height: nat)

  // ---------- the parser ----------

  predicate HighProfile(profileIdc: nat) {
    profileIdc in {100, 110, 122, 244, 44, 83, 86, 118, 128, 138, 139, 134, 135}
  }

  /** NAL header, profile_idc, constraint flags, level_idc and seq_parameter_set_id. */
  function ReadHead(b: Bits): R<nat> {
    var (_, b) :- Skip(b, 8);
    var (profileIdc, b) :- ReadN(b, 8);
    var (_, b) :- Skip(b, 6);
    var (_, b) :- Skip(b, 2);
    var (_, b) :- Skip(b, 8);
    var (_, b) :- SkipUe(b);
    Got(profileIdc, b)
  }

  function SkipScalingLists(b: Bits, i: nat, n: nat): R<()>
    decreases n - i
  {
    if i >= n then Got((), b)
    else
      var (present, b) :- Read1(b);
      var (_, b) :- if present then SkipScalingList(b, 0, if i < 6 then 16 else 64, 8, 8) else Got((), b);
      SkipScalingLists(b, i + 1, n)
  }

  /** The fields of the high profiles; None if chroma_format_idc is rejected. */
  function ReadHigh(b: Bits): R<Option<nat>> {
    var (chroma, b) :- ReadUe(b);
    if chroma.None? || chroma.value > 3 then Got(None, b)
    else
      var (_, b) :- Skip(b, if chroma.value == 3 then 1 else 0);
      var (_, b) :- SkipUe(b);
      var (_, b) :- SkipUe(b);
      var (_, b) :- Skip(b, 1);
      var (matrix, b) :- Read1(b);
      var (_, b) :- if matrix then SkipScalingLists(b, 0, if chroma.value != 3 then 8 else 12) else Got((), b);
      Got(Some(chroma.value), b)
  }

  /** log2_max_frame_num_minus4 and the picture order count fields. */
  function SkipPoc(b: Bits): R<()> {
    var (_, b) :- SkipUe(b);
    var (pocType, b) :- ReadUeSet(b);
    if pocType == 0 then SkipUe(b)
    else if pocType == 1 then
      var (_, b) :- Skip(b, 1);
      var (_, b) :- SkipSe(b);
      var (_, b) :- SkipSe(b);
      var (n, b) :- ReadUeSet(b);
      SkipSes(b, n)
    else Got((), b)
  }

  datatype Crop = Crop(left: nat, right: nat, top: nat, bottom: nat)

  function ReadCrop(b: Bits): R<Crop> {
    var (l, b) :- ReadUeOrZero(b);
    var (r, b) :- ReadUeOrZero(b);
    var (t, b) :- ReadUeOrZero(b);
    var (o, b) :- ReadUeOrZero(b);
    Got(Crop(l, r, t, o), b)
  }

  datatype Frame = Frame(widthInMbsMinus1: nat, heightInMapUnitsMinus1: nat, frameMbsOnly: bool, crop: Option<Crop>)

  /** num_ref_frames to the cropping window; None if a size cannot be read. */
  function ReadFrame(b: Bits): R<Option<Frame>> {
    var (_, b) :- SkipUe(b);
    var (_, b) :- Skip(b, 1);
    var (width, b) :- ReadUe(b);
    if width.None? then Got(None, b)
    else
      var (height, b) :- ReadUe(b);
      if height.None? then Got(None, b)
      else
        var (mbsOnly, b) :- Read1(b);
        var (_, b) :- Skip(b, if mbsOnly then 0 else 1);
        var (_, b) :- Skip(b, 1);
        var (cropping, b) :- Read1(b);
        if cropping then
          var (crop, b) :- ReadCrop(b);
          Got(Some(Frame(width.value, height.value, mbsOnly, Some(crop))), b)
        else Got(Some(Frame(width.value, height.value, mbsOnly, None)), b)
  }

  function SkipCpbs(b: Bits, n: nat): R<()>
    decreases n
  {
    if n == 0 then Got((), b)
    else
      var (_, b) :- SkipUe(b);
      var (_, b) :- SkipUe(b);
      var (_, b) :- Skip(b, 1);
      SkipCpbs(b, n - 1)
  }

  /** skip_hrd_parameters; false if cpb_cnt_minus1 is too large. */
  function ReadHrd(b: Bits): R<bool> {
    var (cpbCntMinus1, b) :- ReadUeSet(b);
    if cpbCntMinus1 > 31 then Got(false, b)
    else
      var (_, b) :- Skip(b, 8);
      var (_, b) :- SkipCpbs(b, cpbCntMinus1 + 1);
      var (_, b) :- Skip(b, 20);
      Got(true, b)
  }

  /** A flag and, if it is set, n more bits. */
  function SkipOpt(b: Bits, n: nat): R<()> {
    var (present, b) :- Read1(b);
    Skip(b, if present then n else 0)
  }

  /** The fields of skip_vui_parameters in front of the HRD parameters.  For the chroma sample locations
      the C code skips two fixed fields of five bits. */
  function SkipVuiHead(b: Bits): R<()> {
    var (_, b) :- SkipAspect(b);
    var (_, b) :- SkipOpt(b, 1);
    var (_, b) :- SkipVideoSignal(b);
    var (_, b) :- SkipOpt(b, 10);
    SkipOpt(b, 65)
  }

  function SkipAspect(b: Bits): R<()> {
    var (aspect, b) :- Read1(b);
    if aspect then
      var (idc, b) :- ReadN(b, 8);
      Skip(b, if idc == 255 then 32 else 0)
    else Got((), b)
  }

  function SkipVideoSignal(b: Bits): R<()> {
    var (signal, b) :- Read1(b);
    if signal then
      var (_, b) :- Skip(b, 4);
      SkipOpt(b, 24)
    else Got((), b)
  }

  function SkipRestriction(b: Bits): R<()> {
    var (restriction, b) :- Read1(b);
    if restriction then
      var (_, b) :- Skip(b, 1);
      var (_, b) :- SkipUe(b);
      var (_, b) :- SkipUe(b);
      var (_, b) :- SkipUe(b);
      var (_, b) :- SkipUe(b);
      var (_, b) :- SkipUe(b);
      SkipUe(b)
    else Got((), b)
  }

  /** A flag and, if it is set, HRD parameters: (flag, accepted). */
  function ReadOptHrd(b: Bits): R<(bool, bool)> {
    var (present, b) :- Read1(b);
    if present then
      var (ok, b) :- ReadHrd(b);
      Got((true, ok), b)
    else Got((false, true), b)
  }

  /** skip_vui_parameters */
  function ReadVui(b: Bits): R<bool> {
    var (_, b) :- SkipVuiHead(b);
    var (nal, b) :- ReadOptHrd(b);
    if !nal.1 then Got(false, b)
    else
      var (vcl, b) :- ReadOptHrd(b);
      if !vcl.1 then Got(false, b)
      else
        var (_, b) :- Skip(b, if nal.0 || vcl.0 then 1 else 0);
        var (_, b) :- Skip(b, 1);
        var (_, b) :- SkipRestriction(b);
        Got(true, b)
  }

  function SubWidth(chroma: nat): (c: nat) {
    if chroma == 1 || chroma == 2 then 2 else 1
  }

  function SubHeight(chroma: nat): (c: nat) {
    if chroma == 1 then 2 else 1
  }

  /** n units of k samples in unsigned 32-bit arithmetic. */
  function Extent(n: nat, k: nat): (r: nat) {
    W32(W32(n) * k)
  }

  /** The size computed in unsigned 32-bit arithmetic and stored in 16 bits. */
  function FrameSize(f: Frame, chroma: nat): (nat, nat) {
    var fields := if f.frameMbsOnly then 1 else 2;
    var width := Extent(f.widthInMbsMinus1 + 1, 16);
    var height := Extent(f.heightInMapUnitsMinus1 + 1, 16 * fields);
    if f.crop.None? then (width % 0x1_0000, height % 0x1_0000)
    else
      var c := f.crop.value;
      (W32(width - Extent(c.left + c.right, SubWidth(chroma))) % 0x1_0000,
       W32(height - Extent(c.top + c.bottom, SubHeight(chroma) * fields)) % 0x1_0000)
  }

  /** sps_parse_dimension_h264 on the bits of the payload. */
  function Parse(b: Bits): Parsed {
    var head := ReadHead(b);
    if head.Undef? then Undefined
    else
      var high := if HighProfile(head.value) then ReadHigh(head.rest) else Got(Some(1), head.rest);
      if high.Undef? then Undefined
      else if high.value.None? then Rejected
      else ParseBody(high.rest, high.value.value)
  }

  /** The part behind the high-profile fields. */
  function ParseBody(b: Bits, chroma: nat): Parsed {
    var poc := SkipPoc(b);
    if poc.Undef? then Undefined
    else
      var frame := ReadFrame(poc.rest);
      if frame.Undef? then Undefined
      else if frame.value.None? then Rejected
      else ParseTail(frame.rest, frame.value.value, chroma)
  }

  function ParseTail(b: Bits, frame: Frame, chroma: nat): Parsed {
    var present := Read1(b);
    if present.Undef? then Undefined
    else
      var vui := if present.value then ReadVui(present.rest) else Got(true, present.rest);
      if vui.Undef? then Undefined
      else if !vui.value then Rejected
      else var (width, height) := FrameSize(frame, chroma); Size(width, height)
  }

  // ---------- the standard's syntax ----------

  datatype Poc =
    | Poc0(log2MaxPocLsbMinus4: nat)
    | Poc1(deltaAlwaysZero: bool, offsetForNonRef: int, offsetTopToBottom: int, offsetsForRefFrame: seq<int>)
    | Poc2

  /** A scaling list holds the delta_scale values that are present in the stream. */
  datatype High = High(chromaFormatIdc: nat, separateColourPlane: bool, bitDepthLumaMinus8: nat, bitDepthChromaMinus8: nat,
                       transformBypass: bool, scaling: Option<seq<Option<seq<int>>>>)

  datatype Cpb = Cpb(bitRateValueMinus1: nat, cpbSizeValueMinus1: nat, cbr: bool)

  datatype Hrd = Hrd(bitRateScale: nat, cpbSizeScale: nat, cpbs: seq<Cpb>, initialDelayLength: nat, removalDelayLength: nat,
                     outputDelayLength: nat, timeOffsetLength: nat)

  datatype Aspect = Aspect(idc: nat, sarWidth: nat, sarHeight: nat)
  datatype Colour = Colour(primaries: nat, transfer: nat, matrix: nat)
  datatype VideoSignal = VideoSignal(format: nat, fullRange: bool, colour: Option<Colour>)
  datatype ChromaLoc = ChromaLoc(top: nat, bottom: nat)
  datatype Timing = Timing(numUnitsInTick: nat, timeScale: nat, fixedRate: bool)
  datatype Restriction = Restriction(mvOverBoundaries: bool, maxBytesPerPic: nat, maxBitsPerMb: nat,
                                     log2MaxMvHorizontal: nat, log2MaxMvVertical: nat, numReorder: nat, maxDecBuffering: nat)

  datatype Vui = Vui(aspect: Option<Aspect>, overscan: Option<bool>, signal: Option<VideoSignal>, chromaLoc: Option<ChromaLoc>,
                     timing: Option<Timing>, nalHrd: Option<Hrd>, vclHrd: Option<Hrd>, lowDelay: bool, picStruct: bool,
                     restriction: Option<Restriction>)

  datatype Sps = Sps(nalHeader: nat, profileIdc: nat, constraintFlags: nat, levelIdc: nat, id: nat, high: High,
                     log2MaxFrameNumMinus4: nat, poc: Poc, maxNumRefFrames: nat, gapsAllowed: bool,
                     widthInMbsMinus1: nat, heightInMapUnitsMinus1: nat, frameMbsOnly: bool, mbAdaptive: bool, direct8x8: bool,
                     crop: Option<Crop>, vui: Option<Vui>)

  /** scaling_list, section 7.3.2.1.1.1, from entry j on. */
  function WriteScalingList(deltas: seq<int>, j: nat, count: nat, lastScale: nat, nextScale: nat, rest: Bits): Bits
    decreases count - j
  {
    if j >= count then rest
    else if nextScale == 0 then WriteScalingList(deltas, j + 1, count, lastScale, 0, rest)
    else if deltas == [] then rest
    else
      var next := StdNextScale(lastScale, deltas[0]);
      Se(deltas[0], WriteScalingList(deltas[1..], j + 1, count, if next == 0 then lastScale else next, next, rest))
  }

  /** There is one delta_scale, in range, for every entry that has one. */
  predicate ScalingListOk(deltas: seq<int>, j: nat, count: nat, lastScale: nat, nextScale: nat)
    decreases count - j
  {
    if j >= count then deltas == []
    else if nextScale == 0 then ScalingListOk(deltas, j + 1, count, lastScale, 0)
    else
      && deltas != [] && -128 <= deltas[0] <= 127
      && var next := StdNextScale(lastScale, deltas[0]);
        ScalingListOk(deltas[1..], j + 1, count, if next == 0 then lastScale else next, next)
  }

  function WriteScalingLists(lists: seq<Option<seq<int>>>, i: nat, rest: Bits): Bits {
    if lists == [] then rest
    else
      var tail := WriteScalingLists(lists[1..], i + 1, rest);
      if lists[0].None? then Flag(false, tail)
      else Flag(true, WriteScalingList(lists[0].value, 0, if i < 6 then 16 else 64, 8, 8, tail))
  }

  predicate ScalingListsOk(lists: seq<Option<seq<int>>>, i: nat) {
    lists != [] ==>
      && (lists[0].Some? ==> ScalingListOk(lists[0].value, 0, if i < 6 then 16 else 64, 8, 8))
      && ScalingListsOk(lists[1..], i + 1)
  }

  predicate IsUe(v: nat) { v < M32 - 1 }

  predicate IsSe(v: int) { -0x7FFF_FFFF <= v <= 0x7FFF_FFFF }

  predicate HighOk(h: High) {
    && h.chromaFormatIdc <= 3 && IsUe(h.bitDepthLumaMinus8) && IsUe(h.bitDepthChromaMinus8)
    && (h.scaling.Some? ==>
          |h.scaling.value| == (if h.chromaFormatIdc != 3 then 8 else 12) && ScalingListsOk(h.scaling.value, 0))
  }

  function WriteHigh(h: High, rest: Bits): Bits {
    var tail := if h.scaling.None? then Flag(false, rest) else Flag(true, WriteScalingLists(h.scaling.value, 0, rest));
    var depths := Ue(h.bitDepthLumaMinus8, Ue(h.bitDepthChromaMinus8, Flag(h.transformBypass, tail)));
    Ue(h.chromaFormatIdc, if h.chromaFormatIdc == 3 then Flag(h.separateColourPlane, depths) else depths)
  }

  function WriteSes(vs: seq<int>, rest: Bits): Bits {
    if vs == [] then rest else Se(vs[0], WriteSes(vs[1..], rest))
  }

  predicate PocOk(p: Poc) {
    match p
    case Poc0(lsb) => IsUe(lsb)
    case Poc1(_, nonRef, topToBottom, offsets) =>
      IsSe(nonRef) && IsSe(topToBottom) && |offsets| <= 255 && forall i :: 0 <= i < |offsets| ==> IsSe(offsets[i])
    case Poc2 => true
  }

  function WritePoc(p: Poc, rest: Bits): Bits {
    match p
    case Poc0(lsb) => Ue(0, Ue(lsb, rest))
    case Poc1(alwaysZero, nonRef, topToBottom, offsets) =>
      Ue(1, Flag(alwaysZero, Se(nonRef, Se(topToBottom, Ue(|offsets|, WriteSes(offsets, rest))))))
    case Poc2 => Ue(2, rest)
  }

  function WriteCrop(c: Crop, rest: Bits): Bits {
    Ue(c.left, Ue(c.right, Ue(c.top, Ue(c.bottom, rest))))
  }

  predicate CropOk(c: Crop) { IsUe(c.left) && IsUe(c.right) && IsUe(c.top) && IsUe(c.bottom) }

  function WriteFrame(s: Sps, rest: Bits): Bits {
    var crop := if s.crop.None? then Flag(false, rest) else Flag(true, WriteCrop(s.crop.value, rest));
    var direct := Flag(s.direct8x8, crop);
    var mbs := if s.frameMbsOnly then Flag(true, direct) else Flag(false, Flag(s.mbAdaptive, direct));
    Ue(s.maxNumRefFrames, Flag(s.gapsAllowed, Ue(s.widthInMbsMinus1, Ue(s.heightInMapUnitsMinus1, mbs))))
  }

  function WriteCpbs(cs: seq<Cpb>, rest: Bits): Bits {
    if cs == [] then rest
    else Ue(cs[0].bitRateValueMinus1, Ue(cs[0].cpbSizeValueMinus1, Flag(cs[0].cbr, WriteCpbs(cs[1..], rest))))
  }

  predicate HrdOk(h: Hrd) {
    1 <= |h.cpbs| <= 32 && forall i :: 0 <= i < |h.cpbs| ==> IsUe(h.cpbs[i].bitRateValueMinus1) && IsUe(h.cpbs[i].cpbSizeValueMinus1)
  }

  function WriteHrd(h: Hrd, rest: Bits): Bits
    requires h.cpbs != []
  {
    Ue(|h.cpbs| - 1, U(4, h.bitRateScale, U(4, h.cpbSizeScale, WriteCpbs(h.cpbs,
      U(5, h.initialDelayLength, U(5, h.removalDelayLength, U(5, h.outputDelayLength, U(5, h.timeOffsetLength, rest))))))))
  }

  function WriteAspect(a: Option<Aspect>, rest: Bits): Bits {
    if a.None? then Flag(false, rest)
    else Flag(true, U(8, a.value.idc, if a.value.idc == 255 then U(16, a.value.sarWidth, U(16, a.value.sarHeight, rest)) else rest))
  }

  function WriteSignal(v: Option<VideoSignal>, rest: Bits): Bits {
    if v.None? then Flag(false, rest)
    else Flag(true, U(3, v.value.format, Flag(v.value.fullRange,
      if v.value.colour.None? then Flag(false, rest)
      else var c := v.value.colour.value; Flag(true, U(8, c.primaries, U(8, c.transfer, U(8, c.matrix, rest)))))))
  }

  function WriteTiming(t: Option<Timing>, rest: Bits): Bits {
    if t.None? then Flag(false, rest)
    else Flag(true, U(32, t.value.numUnitsInTick, U(32, t.value.timeScale, Flag(t.value.fixedRate, rest))))
  }

  function WriteChromaLoc(c: Option<ChromaLoc>, rest: Bits): Bits {
    if c.None? then Flag(false, rest) else Flag(true, Ue(c.value.top, Ue(c.value.bottom, rest)))
  }

  function WriteVuiHead(v: Vui, rest: Bits): Bits {
    var signal := WriteSignal(v.signal, WriteChromaLoc(v.chromaLoc, WriteTiming(v.timing, rest)));
    WriteAspect(v.aspect, if v.overscan.None? then Flag(false, signal) else Flag(true, Flag(v.overscan.value, signal)))
  }

  function WriteOptHrd(h: Option<Hrd>, rest: Bits): Bits
    requires h.Some? ==> h.value.cpbs != []
  {
    if h.None? then Flag(false, rest) else Flag(true, WriteHrd(h.value, rest))
  }

  function WriteRestriction(o: Option<Restriction>, rest: Bits): Bits {
    if o.None? then Flag(false, rest)
    else
      var r := o.value;
      Flag(true, Flag(r.mvOverBoundaries, Ue(r.maxBytesPerPic, Ue(r.maxBitsPerMb, Ue(r.log2MaxMvHorizontal,
        Ue(r.log2MaxMvVertical, Ue(r.numReorder, Ue(r.maxDecBuffering, rest))))))))
  }

  predicate VuiOk(v: Vui) {
    && (v.aspect.Some? ==> v.aspect.value.idc < 256)
    && (v.chromaLoc.Some? ==> v.chromaLoc.value.top <= 5 && v.chromaLoc.value.bottom <= 5)
    && (v.nalHrd.Some? ==> HrdOk(v.nalHrd.value)) && (v.vclHrd.Some? ==> HrdOk(v.vclHrd.value))
    && (v.restriction.Some? ==>
          var r := v.restriction.value;
          && IsUe(r.maxBytesPerPic) && IsUe(r.maxBitsPerMb) && IsUe(r.log2MaxMvHorizontal)
          && IsUe(r.log2MaxMvVertical) && IsUe(r.numReorder) && IsUe(r.maxDecBuffering))
  }

  function WriteVui(v: Vui, rest: Bits): Bits
    requires VuiOk(v)
  {
    var tail := Flag(v.picStruct, WriteRestriction(v.restriction, rest));
    WriteVuiHead(v, WriteOptHrd(v.nalHrd, WriteOptHrd(v.vclHrd,
      if v.nalHrd.Some? || v.vclHrd.Some? then Flag(v.lowDelay, tail) else tail)))
  }

  /** The profiles for which section 7.3.2.1.1 puts chroma_format_idc and what belongs to it into the syntax. */
  predicate HasChromaFields(profileIdc: nat) {
    || profileIdc == 100 || profileIdc == 110 || profileIdc == 122 || profileIdc == 244 || profileIdc == 44
    || profileIdc == 83 || profileIdc == 86 || profileIdc == 118 || profileIdc == 128 || profileIdc == 138
    || profileIdc == 139 || profileIdc == 134 || profileIdc == 135
  }

  predicate SpsOk(s: Sps) {
    && s.profileIdc < 256 && IsUe(s.id) && (HasChromaFields(s.profileIdc) ==> HighOk(s.high))
    && IsUe(s.log2MaxFrameNumMinus4) && PocOk(s.poc) && IsUe(s.maxNumRefFrames)
    && IsUe(s.widthInMbsMinus1) && IsUe(s.heightInMapUnitsMinus1)
    && (s.crop.Some? ==> CropOk(s.crop.value)) && (s.vui.Some? ==> VuiOk(s.vui.value))
  }

  /** seq_parameter_set_data behind the one-byte NAL unit header, up to the VUI flag. */
  function WriteFront(s: Sps, tail: Bits): Bits {
    var body := Ue(s.log2MaxFrameNumMinus4, WritePoc(s.poc, WriteFrame(s, tail)));
    U(8, s.nalHeader, U(8, s.profileIdc, U(6, s.constraintFlags, U(2, 0, U(8, s.levelIdc, Ue(s.id,
      if HasChromaFields(s.profileIdc) then WriteHigh(s.high, body) else body))))))
  }

  /** seq_parameter_set_data behind the one-byte NAL unit header. */
  function WriteSps(s: Sps, rest: Bits): Bits
    requires SpsOk(s)
  {
    WriteFront(s, if s.vui.None? then Flag(false, rest) else Flag(true, WriteVui(s.vui.value, rest)))
  }

  /** ChromaArrayType, section 7.4.2.1.1; the chroma format is 4:2:0 unless it is given. */
  function ChromaArrayType(s: Sps): nat {
    if !HasChromaFields(s.profileIdc) then 1
    else if s.high.chromaFormatIdc == 3 && s.high.separateColourPlane then 0
    else s.high.chromaFormatIdc
  }

  /** Width and height of the cropping rectangle, equations 7-13 to 7-22. */
  function StdSize(s: Sps): (int, int) {
    var fields := if s.frameMbsOnly then 1 else 2;
    var unitX := match ChromaArrayType(s) case 0 => 1 case 1 => 2 case 2 => 2 case _ => 1;
    var unitY := fields * (if ChromaArrayType(s) == 1 then 2 else 1);
    var c := if s.crop.None? then Crop(0, 0, 0, 0) else s.crop.value;
    (16 * (s.widthInMbsMinus1 + 1) - unitX * (c.left + c.right),
     16 * (fields * (s.heightInMapUnitsMinus1 + 1)) - unitY * (c.top + c.bottom))
  }
}
