/** H.265 sequence parameter sets: what sps_parse_dimension_hevc computes, the syntax of sections
    7.3.2.2.1 and 7.3.3 of ITU-T H.265 up to the conformance window, and the proof that they fit. */
module SpsHevc {
  import opened SpsBits
  import opened SpsSyntax
  import opened SpsH264
  import opened SpsH264Proof

  // ---------- the parser ----------

  /** The pairs (sub_layer_profile_present_flag, sub_layer_level_present_flag). */
  function ReadSubLayerFlags(b: Bits, n: nat): (r: R<seq<(bool, bool)>>)
    ensures r.Got? ==> |r.value| == n
    decreases n
  {
    if n == 0 then Got([], b)
    else
      var (profile, b) :- Read1(b);
      var (level, b) :- Read1(b);
      var (flags, b) :- ReadSubLayerFlags(b, n - 1);
      Got([(profile, level)] + flags, b)
  }

  /** parse_profile_info and sub_layer_level_idc, as the flags say. */
  function SkipSubLayers(b: Bits, flags: seq<(bool, bool)>): R<()> {
    if flags == [] then Got((), b)
    else
      var (_, b) :- Skip(b, if flags[0].0 then 88 else 0);
      var (_, b) :- Skip(b, if flags[0].1 then 8 else 0);
      SkipSubLayers(b, flags[1..])
  }

  /** profile_tier_level */
  function SkipProfileTierLevel(b: Bits, maxSubLayersMinus1: nat): R<()>
    requires maxSubLayersMinus1 < 8
  {
    var (_, b) :- Skip(b, 88);
    var (_, b) :- Skip(b, 8);
    var (flags, b) :- ReadSubLayerFlags(b, maxSubLayersMinus1);
    var (_, b) :- Skip(b, if maxSubLayersMinus1 > 0 then 2 * (8 - maxSubLayersMinus1) else 0);
    SkipSubLayers(b, flags)
  }

  datatype Picture = Picture(chroma: nat, width: nat, height: nat, window: Option<Crop>)

  /** sps_seq_parameter_set_id, chroma_format_idc and the plane flag; None where the C function returns false. */
  function ReadChroma(b: Bits): R<Option<nat>> {
    var (id, b) :- ReadUe(b);
    if id.None? then Got(None, b)
    else
      var (chroma, b) :- ReadUe(b);
      if chroma.None? then Got(None, b)
      else
        var (_, b) :- Skip(b, if chroma.value == 3 then 1 else 0);
        Got(chroma, b)
  }

  /** The luma size; None where the C function returns false. */
  function ReadLuma(b: Bits): R<Option<(nat, nat)>> {
    var (width, b) :- ReadUe(b);
    if width.None? then Got(None, b)
    else
      var (height, b) :- ReadUe(b);
      if height.None? || width.value == 0 || height.value == 0 then Got(None, b)
      else Got(Some((width.value, height.value)), b)
  }

  function ReadWindow(b: Bits): R<Option<Crop>> {
    var (windowFlag, b) :- Read1(b);
    if windowFlag then
      var (window, b) :- ReadCrop(b);
      Got(Some(window), b)
    else Got(None, b)
  }

  /** sps_seq_parameter_set_id to the conformance window; None where the C function returns false. */
  function ReadPicture(b: Bits): R<Option<Picture>> {
    var (chroma, b) :- ReadChroma(b);
    if chroma.None? then Got(None, b)
    else
      var (luma, b) :- ReadLuma(b);
      if luma.None? then Got(None, b)
      else
        var (window, b) :- ReadWindow(b);
        Got(Some(Picture(chroma.value, luma.value.0, luma.value.1, window)), b)
  }

  /** The size in unsigned 32-bit arithmetic, stored in 16 bits; the tables have five entries. */
  function PictureSize(p: Picture): Parsed {
    if p.window.None? then Size(p.width % 0x1_0000, p.height % 0x1_0000)
    else if p.chroma > 4 then Undefined
    else
      var c := p.window.value;
      Size(W32(p.width - Extent(c.left + c.right, SubWidth(p.chroma))) % 0x1_0000,
           W32(p.height - Extent(c.top + c.bottom, SubHeight(p.chroma))) % 0x1_0000)
  }

  /** The four bits of the VPS id, sps_max_sub_layers_minus1, the nesting flag and profile_tier_level. */
  function SkipHevcHead(b: Bits): R<()> {
    var (_, b) :- Skip(b, 4);
    var (maxSubLayersMinus1, b) :- ReadN(b, 3);
    var (_, b) :- Skip(b, 1);
    if maxSubLayersMinus1 < 8 then SkipProfileTierLevel(b, maxSubLayersMinus1) else Undef
  }

  /** sps_parse_dimension_hevc on the bits of the payload. */
  function ParseHevc(b: Bits): Parsed {
    var head := SkipHevcHead(b);
    if head.Undef? then Undefined
    else
      var picture := ReadPicture(head.rest);
      if picture.Undef? then Undefined
      else if picture.value.None? then Rejected
      else PictureSize(picture.value.value)
  }

  // ---------- the standard's syntax ----------

  datatype Profile = Profile(space: nat, tier: bool, idc: nat, compatibility: nat, progressive: bool, interlaced: bool,
                             nonPacked: bool, frameOnly: bool, reserved43: nat, inbld: bool)

  datatype SubLayer = SubLayer(profile: Option<Profile>, level: Option<nat>)

  datatype HevcSps = HevcSps(vpsId: nat, nesting: bool, general: Profile, generalLevel: nat, subLayers: seq<SubLayer>,
                             id: nat, chromaFormatIdc: nat, separateColourPlane: bool, width: nat, height: nat,
                             window: Option<Crop>)

  function WriteProfile(p: Profile, rest: Bits): Bits {
    U(2, p.space, Flag(p.tier, U(5, p.idc, U(32, p.compatibility, Flag(p.progressive, Flag(p.interlaced,
      Flag(p.nonPacked, Flag(p.frameOnly, U(43, p.reserved43, Flag(p.inbld, rest))))))))))
  }

  function WriteSubLayerFlags(ls: seq<SubLayer>, rest: Bits): Bits {
    if ls == [] then rest else Flag(ls[0].profile.Some?, Flag(ls[0].level.Some?, WriteSubLayerFlags(ls[1..], rest)))
  }

  /** reserved_zero_2bits for the sub-layers up to index 7. */
  function WriteReserved(n: nat, rest: Bits): Bits {
    if n == 0 then rest else U(2, 0, WriteReserved(n - 1, rest))
  }

  function WriteSubLayers(ls: seq<SubLayer>, rest: Bits): Bits {
    if ls == [] then rest
    else
      var tail := WriteSubLayers(ls[1..], rest);
      var level := if ls[0].level.None? then tail else U(8, ls[0].level.value, tail);
      if ls[0].profile.None? then level else WriteProfile(ls[0].profile.value, level)
  }

  function WriteProfileTierLevel(s: HevcSps, rest: Bits): Bits
    requires |s.subLayers| <= 6
  {
    var n := |s.subLayers|;
    WriteProfile(s.general, U(8, s.generalLevel, WriteSubLayerFlags(s.subLayers,
      WriteReserved(if n > 0 then 8 - n else 0, WriteSubLayers(s.subLayers, rest)))))
  }

  function WritePicture(s: HevcSps, rest: Bits): Bits {
    var window := if s.window.None? then Flag(false, rest) else Flag(true, WriteCrop(s.window.value, rest));
    var size := Ue(s.width, Ue(s.height, window));
    Ue(s.id, Ue(s.chromaFormatIdc, if s.chromaFormatIdc == 3 then Flag(s.separateColourPlane, size) else size))
  }

  /** seq_parameter_set_rbsp up to the conformance window. */
  function WriteHevc(s: HevcSps, rest: Bits): Bits
    requires HevcOk(s)
  {
    U(4, s.vpsId, U(3, |s.subLayers|, Flag(s.nesting, WriteProfileTierLevel(s, WritePicture(s, rest)))))
  }

  predicate HevcOk(s: HevcSps) {
    && |s.subLayers| <= 6 && IsUe(s.id) && s.chromaFormatIdc <= 3
    && 0 < s.width && IsUe(s.width) && 0 < s.height && IsUe(s.height)
    && (s.window.Some? ==> CropOk(s.window.value))
  }

  /** The conformance window, with SubWidthC and SubHeightC of table 6-1. */
  function StdHevcSize(s: HevcSps): (int, int) {
    var c := if s.window.None? then Crop(0, 0, 0, 0) else s.window.value;
    var subWidthC := match s.chromaFormatIdc case 0 => 1 case 1 => 2 case 2 => 2 case _ => 1;
    var subHeightC := match s.chromaFormatIdc case 0 => 1 case 1 => 2 case 2 => 1 case _ => 1;
    (s.width - subWidthC * (c.left + c.right), s.height - subHeightC * (c.top + c.bottom))
  }

  // ---------- reading back ----------

  lemma ProfileRead(p: Profile, rest: Bits)
    ensures Skip(WriteProfile(p, rest), 88) == Got((), rest)
  {
    var b4 := U(43, p.reserved43, Flag(p.inbld, rest));
    FlagRead(p.inbld, rest);
    SkipUSum(43, p.reserved43, 1, Flag(p.inbld, rest), rest);
    ConstraintFlagsRead(p, b4, rest);
    var b0 := Flag(p.progressive, Flag(p.interlaced, Flag(p.nonPacked, Flag(p.frameOnly, b4))));
    SkipUSum(32, p.compatibility, 48, b0, rest);
    SkipUSum(5, p.idc, 80, U(32, p.compatibility, b0), rest);
    SkipFlagSum(p.tier, 85, U(5, p.idc, U(32, p.compatibility, b0)), rest);
    SkipUSum(2, p.space, 86, Flag(p.tier, U(5, p.idc, U(32, p.compatibility, b0))), rest);
  }

  lemma ConstraintFlagsRead(p: Profile, b: Bits, rest: Bits)
    requires Skip(b, 44) == Got((), rest)
    ensures Skip(Flag(p.progressive, Flag(p.interlaced, Flag(p.nonPacked, Flag(p.frameOnly, b)))), 48) == Got((), rest)
  {
    SkipFlagSum(p.frameOnly, 44, b, rest);
    SkipFlagSum(p.nonPacked, 45, Flag(p.frameOnly, b), rest);
    SkipFlagSum(p.interlaced, 46, Flag(p.nonPacked, Flag(p.frameOnly, b)), rest);
    SkipFlagSum(p.progressive, 47, Flag(p.interlaced, Flag(p.nonPacked, Flag(p.frameOnly, b))), rest);
  }

  function FlagsOf(ls: seq<SubLayer>): (flags: seq<(bool, bool)>)
    ensures |flags| == |ls|
  {
    if ls == [] then [] else [(ls[0].profile.Some?, ls[0].level.Some?)] + FlagsOf(ls[1..])
  }

  lemma {:induction false} SubLayerFlagsRead(ls: seq<SubLayer>, rest: Bits)
    ensures ReadSubLayerFlags(WriteSubLayerFlags(ls, rest), |ls|) == Got(FlagsOf(ls), rest)
  {
    if ls != [] {
      var tail := WriteSubLayerFlags(ls[1..], rest);
      FlagRead(ls[0].profile.Some?, Flag(ls[0].level.Some?, tail));
      FlagRead(ls[0].level.Some?, tail);
      SubLayerFlagsRead(ls[1..], rest);
    }
  }

  lemma {:induction false} ReservedRead(n: nat, rest: Bits)
    ensures Skip(WriteReserved(n, rest), 2 * n) == Got((), rest)
  {
    if n == 0 {
      Skip0(rest);
    } else {
      ReservedRead(n - 1, rest);
      SkipUSum(2, 0, 2 * (n - 1), WriteReserved(n - 1, rest), rest);
    }
  }

  lemma {:induction false} SubLayersRead(ls: seq<SubLayer>, rest: Bits)
    ensures SkipSubLayers(WriteSubLayers(ls, rest), FlagsOf(ls)) == Got((), rest)
  {
    if ls != [] {
      var tail := WriteSubLayers(ls[1..], rest);
      var level := if ls[0].level.None? then tail else U(8, ls[0].level.value, tail);
      if ls[0].profile.Some? {
        ProfileRead(ls[0].profile.value, level);
      }
      Skip0(level);
      if ls[0].level.Some? {
        SkipU(8, ls[0].level.value, tail);
      }
      Skip0(tail);
      SubLayersRead(ls[1..], rest);
      assert FlagsOf(ls)[1..] == FlagsOf(ls[1..]);
    }
  }

  lemma ProfileTierLevelRead(s: HevcSps, rest: Bits)
    requires |s.subLayers| <= 6
    ensures SkipProfileTierLevel(WriteProfileTierLevel(s, rest), |s.subLayers|) == Got((), rest)
  {
    hide Skip, WriteProfile, U, ReadSubLayerFlags, WriteSubLayerFlags, WriteReserved, SkipSubLayers, WriteSubLayers, FlagsOf;
    var n := |s.subLayers|;
    var b3 := WriteSubLayers(s.subLayers, rest);
    var b2 := WriteReserved(if n > 0 then 8 - n else 0, b3);
    var b1 := WriteSubLayerFlags(s.subLayers, b2);
    ProfileRead(s.general, U(8, s.generalLevel, b1));
    SkipU(8, s.generalLevel, b1);
    SubLayerFlagsRead(s.subLayers, b2);
    ReservedRead(if n > 0 then 8 - n else 0, b3);
    SubLayersRead(s.subLayers, rest);
  }

  lemma HevcHeadRead(s: HevcSps, rest: Bits)
    requires |s.subLayers| <= 6
    ensures SkipHevcHead(U(4, s.vpsId, U(3, |s.subLayers|, Flag(s.nesting, WriteProfileTierLevel(s, rest))))) == Got((), rest)
  {
    var b2 := WriteProfileTierLevel(s, rest);
    var b1 := Flag(s.nesting, b2);
    SkipU(4, s.vpsId, U(3, |s.subLayers|, b1));
    assert Pow2(3) == 8;
    ReadNU(3, |s.subLayers|, b1);
    FlagRead(s.nesting, b2);
    ProfileTierLevelRead(s, rest);
  }

  function PictureOf(s: HevcSps): Picture {
    Picture(s.chromaFormatIdc, s.width, s.height, s.window)
  }

  lemma WindowRead(s: HevcSps, rest: Bits)
    requires HevcOk(s)
    ensures ReadWindow(if s.window.None? then Flag(false, rest) else Flag(true, WriteCrop(s.window.value, rest))) == Got(s.window, rest)
  {
    if s.window.None? {
      FlagRead(false, rest);
    } else {
      FlagRead(true, WriteCrop(s.window.value, rest));
      CropRead(s.window.value, rest);
    }
  }

  lemma ChromaRead(s: HevcSps, rest: Bits)
    requires HevcOk(s)
    ensures ReadChroma(Ue(s.id, Ue(s.chromaFormatIdc, if s.chromaFormatIdc == 3 then Flag(s.separateColourPlane, rest) else rest)))
         == Got(Some(s.chromaFormatIdc), rest)
  {
    var plane := if s.chromaFormatIdc == 3 then Flag(s.separateColourPlane, rest) else rest;
    ReadUeUe(s.id, Ue(s.chromaFormatIdc, plane));
    ReadUeUe(s.chromaFormatIdc, plane);
    FlagRead(s.separateColourPlane, rest);
    Skip0(rest);
  }

  lemma LumaRead(s: HevcSps, rest: Bits)
    requires HevcOk(s)
    ensures ReadLuma(Ue(s.width, Ue(s.height, rest))) == Got(Some((s.width, s.height)), rest)
  {
    ReadUeUe(s.width, Ue(s.height, rest));
    ReadUeUe(s.height, rest);
  }

  /** A luma size is rejected exactly if one of its sides is zero, whatever follows. */
  lemma LumaRejected(width: nat, height: nat, rest: Bits)
    requires IsUe(width) && IsUe(height)
    ensures ReadLuma(Ue(width, Ue(height, rest))) == Got(None, rest) <==> width == 0 || height == 0
  {
    hide Ue;
    ReadUeUe(width, Ue(height, rest));
    ReadUeUe(height, rest);
  }

  lemma PictureRead(s: HevcSps, rest: Bits)
    requires HevcOk(s)
    ensures ReadPicture(WritePicture(s, rest)) == Got(Some(PictureOf(s)), rest)
  {
    var window := if s.window.None? then Flag(false, rest) else Flag(true, WriteCrop(s.window.value, rest));
    ChromaRead(s, Ue(s.width, Ue(s.height, window)));
    LumaRead(s, window);
    WindowRead(s, rest);
  }

  /** A length below 2^32 less c units of u. */
  lemma WindowExact(n: nat, c: nat, u: nat)
    ensures W32(n - Extent(c, u)) % 0x1_0000 == (n - c * u) % 0x1_0000
  {
    ExtentCongruent(c, u);
    CongruentSub(n, Extent(c, u), n, c * u);
    W32Congruent(n - Extent(c, u));
    CongruentTrans(W32(n - Extent(c, u)), n - Extent(c, u), n - c * u);
    CongruentMod16(W32(n - Extent(c, u)), n - c * u);
  }

  lemma HevcSizeExact(s: HevcSps)
    requires HevcOk(s)
    ensures PictureSize(PictureOf(s)) == Size(StdHevcSize(s).0 % 0x1_0000, StdHevcSize(s).1 % 0x1_0000)
  {
    if s.window.Some? {
      var c := s.window.value;
      if SubWidth(s.chromaFormatIdc) == 2 {
        WindowExact(s.width, c.left + c.right, 2);
      } else {
        WindowExact(s.width, c.left + c.right, 1);
      }
      if SubHeight(s.chromaFormatIdc) == 2 {
        WindowExact(s.height, c.top + c.bottom, 2);
      } else {
        WindowExact(s.height, c.top + c.bottom, 1);
      }
    }
  }

  function ParseHevcBytes(data: seq<byte>): Parsed {
    ParseHevc(BytesBits(Payload(data, 0, 0)))
  }

  /** Round trip: every parameter set with at most seven temporal sub-layers and a defined chroma format, whatever
      its sub-layer flags, is read back with the size of its conformance window modulo 2^16, so with that size
      exactly if it fits 16 bits.  `rest` is everything behind the window. */
  lemma HevcRoundTrip(s: HevcSps, rest: Bits)
    requires HevcOk(s) && |WriteHevc(s, rest)| % 8 == 0
    ensures ParseHevcBytes(NalUnit(WriteHevc(s, rest))) == Size(StdHevcSize(s).0 % 0x1_0000, StdHevcSize(s).1 % 0x1_0000)
    ensures IsSize(ParseHevcBytes(NalUnit(WriteHevc(s, rest))), StdHevcSize(s)) <==> Fits(StdHevcSize(s))
  {
    NalUnitBits(WriteHevc(s, rest));
    HevcHeadRead(s, WritePicture(s, rest));
    PictureRead(s, rest);
    HevcSizeExact(s);
    SizeFits(ParseHevcBytes(NalUnit(WriteHevc(s, rest))), StdHevcSize(s));
  }
}
