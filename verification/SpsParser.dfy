/** The parsing functions of sps_parser.c as they run on the bit stream, each proved to compute what the
    specifications in SpsH264 and SpsHevc say, and to stop at the same bit. */
module SpsParser {
  import opened SpsBits
  import opened SpsSyntax
  import opened SpsH264
  import opened SpsH264Proof
  import opened SpsHevc
  import opened SpsReader

  // ---------- H.264 ----------

  method ParseHead(buf: BitStream) returns (profileIdc: nat)
    requires buf.Valid() && ReadHead(buf.Rest()).Got?
    modifies buf
    ensures buf.Valid() && Got(profileIdc, buf.Rest()) == ReadHead(old(buf.Rest()))
  {
    buf.SkipBits(8);
    profileIdc := buf.Read8();
    // constraint_set[0-5]_flag
    buf.SkipBits(6);
    // reserved_zero_2bits
    buf.SkipBits(2);
    // level_idc
    buf.SkipBits(8);
    buf.IgnoreUeg();
  }

  method ParseScalingLists(buf: BitStream, n: nat)
    requires buf.Valid() && SkipScalingLists(buf.Rest(), 0, n).Got?
    modifies buf
    ensures buf.Valid() && Got((), buf.Rest()) == SkipScalingLists(old(buf.Rest()), 0, n)
  {
    var i := 0;
    while i < n
      invariant 0 <= i <= n && buf.Valid()
      invariant SkipScalingLists(buf.Rest(), i, n) == SkipScalingLists(old(buf.Rest()), 0, n)
    {
      var present := buf.ReadFlag();
      if present {
        var _ := buf.ReadScalingList(if i < 6 then 16 else 64);
      }
      i := i + 1;
    }
  }

  method ParseHigh(buf: BitStream) returns (ok: bool, chromaFormatIdc: nat)
    requires buf.Valid() && ReadHigh(buf.Rest()).Got?
    modifies buf
    ensures buf.Valid()
    ensures Got(if ok then Some(chromaFormatIdc) else None, buf.Rest()) == ReadHigh(old(buf.Rest()))
  {
    ok, chromaFormatIdc := buf.ReadUeg();
    if !ok || chromaFormatIdc > 3 {
      return false, 0;
    }
    // separate_colour_plane_flag
    buf.SkipBits(if chromaFormatIdc == 3 then 1 else 0);
    // bit_depth_luma_minus8, bit_depth_chroma_minus8
    buf.IgnoreUeg();
    buf.IgnoreUeg();
    // qpprime_y_zero_transform_bypass_flag
    buf.SkipBits(1);
    var scalingMatrixPresent := buf.ReadFlag();
    if scalingMatrixPresent {
      ParseScalingLists(buf, if chromaFormatIdc != 3 then 8 else 12);
    }
  }

  method ParseOffsets(buf: BitStream, n: nat)
    requires buf.Valid() && SkipSes(buf.Rest(), n).Got?
    modifies buf
    ensures buf.Valid() && Got((), buf.Rest()) == SkipSes(old(buf.Rest()), n)
  {
    hide SkipSes;
    var i := 0;
    while i < n
      invariant 0 <= i <= n && buf.Valid()
      invariant SkipSes(buf.Rest(), n - i) == SkipSes(old(buf.Rest()), n)
    {
      ParseOffset(buf, n - i);
      i := i + 1;
    }
    NoSes(buf.Rest());
  }

  /** offset_for_ref_frame, the first of m. */
  method ParseOffset(buf: BitStream, ghost m: nat)
    requires buf.Valid() && m > 0 && SkipSes(buf.Rest(), m).Got?
    modifies buf
    ensures buf.Valid() && SkipSes(buf.Rest(), m - 1) == SkipSes(old(buf.Rest()), m)
  {
    buf.IgnoreEg();
  }

  lemma NoSes(b: Bits)
    ensures SkipSes(b, 0) == Got((), b)
  {
  }

  method ParsePoc(buf: BitStream)
    requires buf.Valid() && SkipPoc(buf.Rest()).Got?
    modifies buf
    ensures buf.Valid() && Got((), buf.Rest()) == SkipPoc(old(buf.Rest()))
  {
    // log2_max_frame_num_minus4
    buf.IgnoreUeg();
    var picOrderCntType := buf.UegSet();
    if picOrderCntType == 0 {
      // log2_max_pic_order_cnt_lsb_minus4
      buf.IgnoreUeg();
    } else if picOrderCntType == 1 {
      // delta_pic_order_always_zero_flag
      buf.SkipBits(1);
      // offset_for_non_ref_pic, offset_for_top_to_bottom_field
      buf.IgnoreEg();
      buf.IgnoreEg();
      var n := buf.UegSet();
      ParseOffsets(buf, n);
    }
  }

  method ParseCrop(buf: BitStream) returns (left: nat, right: nat, top: nat, bottom: nat)
    requires buf.Valid() && ReadCrop(buf.Rest()).Got?
    modifies buf
    ensures buf.Valid() && Got(Crop(left, right, top, bottom), buf.Rest()) == ReadCrop(old(buf.Rest()))
  {
    left := buf.UegOrZero();
    right := buf.UegOrZero();
    top := buf.UegOrZero();
    bottom := buf.UegOrZero();
  }

  method ParseFrame(buf: BitStream) returns (frame: Option<Frame>)
    requires buf.Valid() && ReadFrame(buf.Rest()).Got?
    modifies buf
    ensures buf.Valid() && Got(frame, buf.Rest()) == ReadFrame(old(buf.Rest()))
  {
    // num_ref_frames
    buf.IgnoreUeg();
    // gaps_in_frame_num_value_allowed_flag
    buf.SkipBits(1);
    var ok, width := buf.ReadUeg();
    if !ok {
      return None;
    }
    var height;
    ok, height := buf.ReadUeg();
    if !ok {
      return None;
    }
    var frameMbsOnly := buf.ReadFlag();
    // mb_adaptive_frame_field_flag
    buf.SkipBits(if frameMbsOnly then 0 else 1);
    // direct_8x8_inference_flag
    buf.SkipBits(1);
    var frameCropping := buf.ReadFlag();
    if frameCropping {
      var l, r, t, b := ParseCrop(buf);
      return Some(Frame(width, height, frameMbsOnly, Some(Crop(l, r, t, b))));
    }
    return Some(Frame(width, height, frameMbsOnly, None));
  }

  method ParseCpbs(buf: BitStream, n: nat)
    requires buf.Valid() && SkipCpbs(buf.Rest(), n).Got?
    modifies buf
    ensures buf.Valid() && Got((), buf.Rest()) == SkipCpbs(old(buf.Rest()), n)
  {
    hide SkipCpbs;
    var i := 0;
    ghost var all := SkipCpbs(buf.Rest(), n);
    while i < n
      invariant 0 <= i <= n && buf.Valid()
      invariant SkipCpbs(buf.Rest(), n - i) == all
    {
      ParseCpb(buf, n - i);
      i := i + 1;
    }
    NoCpbs(buf.Rest());
  }

  lemma NoCpbs(b: Bits)
    ensures SkipCpbs(b, 0) == Got((), b)
  {
  }

  /** bit_rate_value_minus1, cpb_size_value_minus1, cbr_flag of the first of m entries. */
  method ParseCpb(buf: BitStream, ghost m: nat)
    requires buf.Valid() && m > 0 && SkipCpbs(buf.Rest(), m).Got?
    modifies buf
    ensures buf.Valid() && SkipCpbs(buf.Rest(), m - 1) == SkipCpbs(old(buf.Rest()), m)
  {
    buf.IgnoreUeg();
    buf.IgnoreUeg();
    buf.SkipBits(1);
  }

  lemma SkipTwice(b: Bits, m: nat, n: nat)
    requires Skip(b, m + n).Got?
    ensures Skip(b, m).Got? && Skip(Skip(b, m).rest, n) == Skip(b, m + n)
  {
    assert b[m..][n..] == b[m + n..];
  }

  /** Consecutive fields of the given widths. */
  method SkipFields(buf: BitStream, m: nat, n: nat)
    requires buf.Valid() && Skip(buf.Rest(), m + n).Got?
    modifies buf
    ensures buf.Valid() && Got((), buf.Rest()) == Skip(old(buf.Rest()), m + n)
  {
    SkipTwice(buf.Rest(), m, n);
    buf.SkipBits(m);
    buf.SkipBits(n);
  }

  /** skip_hrd_parameters */
  method SkipHrdParameters(buf: BitStream) returns (ok: bool)
    requires buf.Valid() && ReadHrd(buf.Rest()).Got?
    modifies buf
    ensures buf.Valid() && Got(ok, buf.Rest()) == ReadHrd(old(buf.Rest()))
  {
    var cpbCntMinus1 := buf.UegSet();
    if cpbCntMinus1 > 31 {
      return false;
    }
    // bit_rate_scale, cpb_size_scale
    SkipFields(buf, 4, 4);
    ParseCpbs(buf, cpbCntMinus1 + 1);
    // four lengths of five bits
    SkipTwice(buf.Rest(), 10, 10);
    SkipFields(buf, 5, 5);
    SkipFields(buf, 5, 5);
    return true;
  }

  method SkipAspectRatio(buf: BitStream)
    requires buf.Valid() && SkipAspect(buf.Rest()).Got?
    modifies buf
    ensures buf.Valid() && Got((), buf.Rest()) == SkipAspect(old(buf.Rest()))
  {
    var present := buf.ReadFlag();
    if present {
      var aspectRatioIdc := buf.Read8();
      if aspectRatioIdc == 255 {
        // sar_width, sar_height
        SkipFields(buf, 16, 16);
      } else {
        buf.SkipBits(0);
      }
    }
  }

  method SkipColour(buf: BitStream)
    requires buf.Valid() && SkipOpt(buf.Rest(), 24).Got?
    modifies buf
    ensures buf.Valid() && Got((), buf.Rest()) == SkipOpt(old(buf.Rest()), 24)
  {
    var present := buf.ReadFlag();
    if present {
      SkipTwice(buf.Rest(), 16, 8);
      SkipFields(buf, 8, 8);
      buf.SkipBits(8);
    } else {
      buf.SkipBits(0);
    }
  }

  method SkipSignalType(buf: BitStream)
    requires buf.Valid() && SkipVideoSignal(buf.Rest()).Got?
    modifies buf
    ensures buf.Valid() && Got((), buf.Rest()) == SkipVideoSignal(old(buf.Rest()))
  {
    var present := buf.ReadFlag();
    if present {
      // video_format, video_full_range_flag
      SkipFields(buf, 3, 1);
      SkipColour(buf);
    }
  }

  method SkipChromaLoc(buf: BitStream)
    requires buf.Valid() && SkipOpt(buf.Rest(), 10).Got?
    modifies buf
    ensures buf.Valid() && Got((), buf.Rest()) == SkipOpt(old(buf.Rest()), 10)
  {
    var present := buf.ReadFlag();
    if present {
      SkipFields(buf, 5, 5);
    } else {
      buf.SkipBits(0);
    }
  }

  method SkipTiming(buf: BitStream)
    requires buf.Valid() && SkipOpt(buf.Rest(), 65).Got?
    modifies buf
    ensures buf.Valid() && Got((), buf.Rest()) == SkipOpt(old(buf.Rest()), 65)
  {
    var present := buf.ReadFlag();
    if present {
      // num_units_in_tick, time_scale, fixed_frame_rate_flag
      SkipTwice(buf.Rest(), 64, 1);
      SkipFields(buf, 32, 32);
      buf.SkipBits(1);
    } else {
      buf.SkipBits(0);
    }
  }

  method SkipOverscan(buf: BitStream)
    requires buf.Valid() && SkipOpt(buf.Rest(), 1).Got?
    modifies buf
    ensures buf.Valid() && Got((), buf.Rest()) == SkipOpt(old(buf.Rest()), 1)
  {
    var present := buf.ReadFlag();
    buf.SkipBits(if present then 1 else 0);
  }

  method SkipVuiBeforeHrd(buf: BitStream)
    requires buf.Valid() && SkipVuiHead(buf.Rest()).Got?
    modifies buf
    ensures buf.Valid() && Got((), buf.Rest()) == SkipVuiHead(old(buf.Rest()))
  {
    SkipAspectRatio(buf);
    SkipOverscan(buf);
    SkipSignalType(buf);
    SkipChromaLoc(buf);
    SkipTiming(buf);
  }

  method SkipOptHrd(buf: BitStream) returns (present: bool, ok: bool)
    requires buf.Valid() && ReadOptHrd(buf.Rest()).Got?
    modifies buf
    ensures buf.Valid() && Got((present, ok), buf.Rest()) == ReadOptHrd(old(buf.Rest()))
  {
    present := buf.ReadFlag();
    ok := true;
    if present {
      ok := SkipHrdParameters(buf);
    }
  }

  method SkipBitstreamRestriction(buf: BitStream)
    requires buf.Valid() && SkipRestriction(buf.Rest()).Got?
    modifies buf
    ensures buf.Valid() && Got((), buf.Rest()) == SkipRestriction(old(buf.Rest()))
  {
    var present := buf.ReadFlag();
    if present {
      // motion_vectors_over_pic_boundaries_flag
      buf.SkipBits(1);
      buf.IgnoreUeg();
      buf.IgnoreUeg();
      buf.IgnoreUeg();
      buf.IgnoreUeg();
      buf.IgnoreUeg();
      buf.IgnoreUeg();
    }
  }

  /** skip_vui_parameters */
  method SkipVuiParameters(buf: BitStream) returns (ok: bool)
    requires buf.Valid() && ReadVui(buf.Rest()).Got?
    modifies buf
    ensures buf.Valid() && Got(ok, buf.Rest()) == ReadVui(old(buf.Rest()))
  {
    SkipVuiBeforeHrd(buf);
    var nal, vcl;
    nal, ok := SkipOptHrd(buf);
    if !ok {
      return false;
    }
    vcl, ok := SkipOptHrd(buf);
    if !ok {
      return false;
    }
    // low_delay_hrd_flag
    buf.SkipBits(if nal || vcl then 1 else 0);
    // pic_struct_present_flag
    buf.SkipBits(1);
    SkipBitstreamRestriction(buf);
    return true;
  }

  /** sps_parse_dimension_h264, behind the chroma format. */
  method ParseDimension(buf: BitStream, chromaFormatIdc: nat) returns (ok: bool, width: nat, height: nat)
    requires buf.Valid() && !ParseBody(buf.Rest(), chromaFormatIdc).Undefined?
    modifies buf
    ensures (if ok then Size(width, height) else Rejected) == ParseBody(old(buf.Rest()), chromaFormatIdc)
  {
    ParsePoc(buf);
    var frame := ParseFrame(buf);
    if frame.None? {
      return false, 0, 0;
    }
    var vuiParametersPresent := buf.ReadFlag();
    if vuiParametersPresent {
      var okVui := SkipVuiParameters(buf);
      if !okVui {
        return false, 0, 0;
      }
    }
    width, height := Dimension(frame.value, chromaFormatIdc);
    return true, width, height;
  }

  /** The size computation at the end of sps_parse_dimension_h264. */
  method Dimension(frame: Frame, chromaFormatIdc: nat) returns (w: nat, h: nat)
    ensures (w, h) == FrameSize(frame, chromaFormatIdc)
  {
    var fields := if frame.frameMbsOnly then 1 else 2;
    var width := W32(frame.widthInMbsMinus1 + 1);
    width := W32(width * 16);
    var height := W32(frame.heightInMapUnitsMinus1 + 1);
    height := W32(height * (16 * fields));
    if frame.crop.Some? {
      var c := frame.crop.value;
      var cropUnitX := SubWidth(chromaFormatIdc);
      var cropUnitY := SubHeight(chromaFormatIdc) * fields;
      width := W32(width - W32(W32(c.left + c.right) * cropUnitX));
      height := W32(height - W32(W32(c.top + c.bottom) * cropUnitY));
    }
    return width % 0x1_0000, height % 0x1_0000;
  }

  /** sps_parse_dimension_h264 */
  method SpsParseDimensionH264(data: seq<byte>) returns (ok: bool, width: nat, height: nat)
    requires 8 * |data| < M32 && !ParseBytes(data).Undefined?
    ensures (if ok then Size(width, height) else Rejected) == ParseBytes(data)
  {
    var buf := new BitStream(data);
    var chromaFormatIdc := 1;
    var profileIdc := ParseHead(buf);
    if profileIdc in {100, 110, 122, 244, 44, 83, 86, 118, 128, 138, 139, 134, 135} {
      ok, chromaFormatIdc := ParseHigh(buf);
      if !ok {
        return false, 0, 0;
      }
    }
    ok, width, height := ParseDimension(buf, chromaFormatIdc);
  }

  // ---------- H.265 ----------

  /** parse_profile_info */
  method ParseProfileInfo(buf: BitStream)
    requires buf.Valid() && Skip(buf.Rest(), 88).Got?
    modifies buf
    ensures buf.Valid() && Got((), buf.Rest()) == Skip(old(buf.Rest()), 88)
  {
    ghost var rest := buf.Rest();
    // profile_space, tier_flag, profile_idc
    SkipTwice(rest, 8, 80);
    SkipTwice(rest, 3, 5);
    SkipFields(buf, 2, 1);
    buf.SkipBits(5);
    SkipTwice(buf.Rest(), 32, 48);
    var i := 0;
    while i < 32
      invariant 0 <= i <= 32 && buf.Valid() && Skip(buf.Rest(), 32 - i + 48) == Skip(rest, 88)
    {
      SkipTwice(buf.Rest(), 1, 31 - i + 48);
      buf.SkipBits(1);
      i := i + 1;
    }
    // four source and constraint flags
    SkipTwice(buf.Rest(), 4, 44);
    SkipTwice(buf.Rest(), 2, 2);
    SkipFields(buf, 1, 1);
    SkipFields(buf, 1, 1);
    buf.SkipBits(44);
  }

  lemma NoFlags(b: Bits)
    ensures ReadSubLayerFlags(b, 0) == Got([], b)
  {
  }

  lemma OneMoreFlags(b: Bits, n: nat)
    requires n > 0 && ReadSubLayerFlags(b, n).Got?
    ensures |b| >= 2 && ReadSubLayerFlags(b[1..][1..], n - 1).Got?
    ensures var more := ReadSubLayerFlags(b[1..][1..], n - 1);
      ReadSubLayerFlags(b, n) == Got([(b[0], b[1..][0])] + more.value, more.rest)
  {
  }

  method ParseSubLayerFlags(buf: BitStream, n: nat) returns (flags: seq<(bool, bool)>)
    requires buf.Valid() && ReadSubLayerFlags(buf.Rest(), n).Got?
    modifies buf
    ensures buf.Valid() && Got(flags, buf.Rest()) == ReadSubLayerFlags(old(buf.Rest()), n)
  {
    hide ReadSubLayerFlags;
    flags := [];
    var i := 0;
    ghost var all := ReadSubLayerFlags(buf.Rest(), n);
    while i < n
      invariant 0 <= i <= n && buf.Valid()
      invariant flags == all.value[..i]
      invariant ReadSubLayerFlags(buf.Rest(), n - i) == Got(all.value[i..], all.rest)
    {
      OneMoreFlags(buf.Rest(), n - i);
      var profilePresent := buf.ReadFlag();
      var levelPresent := buf.ReadFlag();
      assert all.value[i] == all.value[i..][0] == (profilePresent, levelPresent) && all.value[i + 1..] == all.value[i..][1..];
      flags := flags + [(profilePresent, levelPresent)];
      i := i + 1;
    }
    NoFlags(buf.Rest());
    assert all.value[..n] == all.value;
  }

  method ParseSubLayers(buf: BitStream, flags: seq<(bool, bool)>)
    requires buf.Valid() && SkipSubLayers(buf.Rest(), flags).Got?
    modifies buf
    ensures buf.Valid() && Got((), buf.Rest()) == SkipSubLayers(old(buf.Rest()), flags)
  {
    var i := 0;
    while i < |flags|
      invariant 0 <= i <= |flags| && buf.Valid()
      invariant SkipSubLayers(buf.Rest(), flags[i..]) == SkipSubLayers(old(buf.Rest()), flags)
    {
      if flags[i].0 {
        ParseProfileInfo(buf);
      } else {
        buf.SkipBits(0);
      }
      // sub_layer_level_idc
      buf.SkipBits(if flags[i].1 then 8 else 0);
      i := i + 1;
    }
  }

  method SkipReserved(buf: BitStream, n: nat)
    requires buf.Valid() && Skip(buf.Rest(), 2 * n).Got?
    modifies buf
    ensures buf.Valid() && Got((), buf.Rest()) == Skip(old(buf.Rest()), 2 * n)
  {
    var i := 0;
    while i < n
      invariant 0 <= i <= n && buf.Valid()
      invariant Skip(buf.Rest(), 2 * (n - i)) == Skip(old(buf.Rest()), 2 * n)
    {
      SkipTwice(buf.Rest(), 2, 2 * (n - i - 1));
      buf.SkipBits(2);
      i := i + 1;
    }
  }

  method ParseProfileTierLevel(buf: BitStream, maxSubLayersMinus1: nat)
    requires maxSubLayersMinus1 < 8
    requires buf.Valid() && SkipProfileTierLevel(buf.Rest(), maxSubLayersMinus1).Got?
    modifies buf
    ensures buf.Valid() && Got((), buf.Rest()) == SkipProfileTierLevel(old(buf.Rest()), maxSubLayersMinus1)
  {
    ParseProfileInfo(buf);
    // level_idc
    buf.SkipBits(8);
    var flags := ParseSubLayerFlags(buf, maxSubLayersMinus1);
    SkipReserved(buf, if maxSubLayersMinus1 > 0 then 8 - maxSubLayersMinus1 else 0);
    ParseSubLayers(buf, flags);
  }

  method ParseHevcHead(buf: BitStream)
    requires buf.Valid() && SkipHevcHead(buf.Rest()).Got?
    modifies buf
    ensures buf.Valid() && Got((), buf.Rest()) == SkipHevcHead(old(buf.Rest()))
  {
    // vps_id
    buf.SkipBits(4);
    var _, maxSubLayersMinus1 := buf.ReadBits(3);
    // temporal_id_nesting_flag
    buf.SkipBits(1);
    ParseProfileTierLevel(buf, maxSubLayersMinus1);
  }

  method ParseChroma(buf: BitStream) returns (chroma: Option<nat>)
    requires buf.Valid() && ReadChroma(buf.Rest()).Got?
    modifies buf
    ensures buf.Valid() && Got(chroma, buf.Rest()) == ReadChroma(old(buf.Rest()))
  {
    var ok, _ := buf.ReadUeg();
    if !ok {
      return None;
    }
    var chromaFormatIdc;
    ok, chromaFormatIdc := buf.ReadUeg();
    if !ok {
      return None;
    }
    // separate_colour_plane_flag
    buf.SkipBits(if chromaFormatIdc == 3 then 1 else 0);
    return Some(chromaFormatIdc);
  }

  method ParseLuma(buf: BitStream) returns (luma: Option<(nat, nat)>)
    requires buf.Valid() && ReadLuma(buf.Rest()).Got?
    modifies buf
    ensures buf.Valid() && Got(luma, buf.Rest()) == ReadLuma(old(buf.Rest()))
  {
    var ok, width := buf.ReadUeg();
    if !ok {
      return None;
    }
    var height;
    ok, height := buf.ReadUeg();
    if !ok || width == 0 || height == 0 {
      return None;
    }
    return Some((width, height));
  }

  method ParseWindow(buf: BitStream) returns (window: Option<Crop>)
    requires buf.Valid() && ReadWindow(buf.Rest()).Got?
    modifies buf
    ensures buf.Valid() && Got(window, buf.Rest()) == ReadWindow(old(buf.Rest()))
  {
    var conformanceWindow := buf.ReadFlag();
    if conformanceWindow {
      var l, r, t, b := ParseCrop(buf);
      return Some(Crop(l, r, t, b));
    }
    return None;
  }

  /** sps_parse_dimension_hevc */
  method SpsParseDimensionHevc(data: seq<byte>) returns (ok: bool, width: nat, height: nat)
    requires 8 * |data| < M32 && !ParseHevcBytes(data).Undefined?
    ensures (if ok then Size(width, height) else Rejected) == ParseHevcBytes(data)
  {
    var buf := new BitStream(data);
    ParseHevcHead(buf);
    var chroma := ParseChroma(buf);
    if chroma.None? {
      return false, 0, 0;
    }
    var luma := ParseLuma(buf);
    if luma.None? {
      return false, 0, 0;
    }
    var window := ParseWindow(buf);
    width, height := HevcDimension(Picture(chroma.value, luma.value.0, luma.value.1, window));
    return true, width, height;
  }

  /** The size computation at the end of sps_parse_dimension_hevc. */
  method HevcDimension(p: Picture) returns (w: nat, h: nat)
    requires !PictureSize(p).Undefined?
    ensures Size(w, h) == PictureSize(p)
  {
    var width, height := p.width, p.height;
    if p.window.Some? {
      var c := p.window.value;
      width := W32(width - W32(W32(c.left + c.right) * SubWidth(p.chroma)));
      height := W32(height - W32(W32(c.top + c.bottom) * SubHeight(p.chroma)));
    }
    return width % 0x1_0000, height % 0x1_0000;
  }
}
