/** sps_parse_dimension_h264 reads back every conforming parameter set. */
module SpsH264Proof {
  import opened SpsBits
  import opened SpsSyntax
  import opened SpsH264

  lemma HeadRead(s: Sps, rest: Bits)
    requires s.profileIdc < 256 && IsUe(s.id)
    ensures ReadHead(U(8, s.nalHeader, U(8, s.profileIdc, U(6, s.constraintFlags, U(2, 0, U(8, s.levelIdc, Ue(s.id, rest)))))))
         == Got(s.profileIdc, rest)
  {
    Pow2Constants();
    var b4 := Ue(s.id, rest);
    var b3 := U(8, s.levelIdc, b4);
    var b2 := U(2, 0, b3);
    var b1 := U(6, s.constraintFlags, b2);
    var b0 := U(8, s.profileIdc, b1);
    SkipU(8, s.nalHeader, b0);
    ReadNU(8, s.profileIdc, b1);
    SkipU(6, s.constraintFlags, b2);
    SkipU(2, 0, b3);
    SkipU(8, s.levelIdc, b4);
    SkipUeUe(s.id, rest);
  }

  lemma {:induction false} ScalingListRead(deltas: seq<int>, j: nat, count: nat, lastScale: nat, nextScale: nat, rest: Bits)
    requires lastScale < 256 && ScalingListOk(deltas, j, count, lastScale, nextScale)
    ensures SkipScalingList(WriteScalingList(deltas, j, count, lastScale, nextScale, rest), j, count, lastScale, nextScale)
         == Got((), rest)
    decreases count - j
  {
    if j < count {
      if nextScale == 0 {
        ScalingListRead(deltas, j + 1, count, lastScale, 0, rest);
      } else {
        var next := StdNextScale(lastScale, deltas[0]);
        var last := if next == 0 then lastScale else next;
        ScalingListRead(deltas[1..], j + 1, count, last, next, rest);
        DeltaRead(deltas[0], j, count, lastScale, nextScale, WriteScalingList(deltas[1..], j + 1, count, last, next, rest));
      }
    }
  }

  lemma DeltaRead(delta: int, j: nat, count: nat, lastScale: nat, nextScale: nat, tail: Bits)
    requires lastScale < 256 && j < count && nextScale != 0 && -128 <= delta <= 127
    ensures var next := StdNextScale(lastScale, delta);
      SkipScalingList(Se(delta, tail), j, count, lastScale, nextScale)
      == SkipScalingList(tail, j + 1, count, if next == 0 then lastScale else next, next)
  {
    ReadSeSe(delta, tail);
    NextScaleExact(lastScale, delta);
  }

  lemma FlagRead(v: bool, rest: Bits)
    ensures Read1(Flag(v, rest)) == Got(v, rest)
    ensures Skip(Flag(v, rest), 1) == Got((), rest)
    ensures |rest| > 0 ==> Skip(rest, 0) == Got((), rest)
  {
  }

  lemma Skip0(b: Bits)
    ensures Skip(b, 0) == Got((), b)
  {
  }

  lemma {:induction false} ScalingListsRead(lists: seq<Option<seq<int>>>, i: nat, n: nat, rest: Bits)
    requires n == i + |lists| && ScalingListsOk(lists, i)
    ensures SkipScalingLists(WriteScalingLists(lists, i, rest), i, n) == Got((), rest)
    decreases |lists|
  {
    if lists != [] {
      var tail := WriteScalingLists(lists[1..], i + 1, rest);
      ScalingListsRead(lists[1..], i + 1, n, rest);
      if lists[0].None? {
        FlagRead(false, tail);
      } else {
        var count := if i < 6 then 16 else 64;
        FlagRead(true, WriteScalingList(lists[0].value, 0, count, 8, 8, tail));
        ScalingListRead(lists[0].value, 0, count, 8, 8, tail);
      }
    }
  }

  lemma HighRead(h: High, rest: Bits)
    requires HighOk(h)
    ensures ReadHigh(WriteHigh(h, rest)) == Got(Some(h.chromaFormatIdc), rest)
  {
    var tail := if h.scaling.None? then Flag(false, rest) else Flag(true, WriteScalingLists(h.scaling.value, 0, rest));
    var d2 := Flag(h.transformBypass, tail);
    var d1 := Ue(h.bitDepthChromaMinus8, d2);
    var d0 := Ue(h.bitDepthLumaMinus8, d1);
    var c := if h.chromaFormatIdc == 3 then Flag(h.separateColourPlane, d0) else d0;
    SkipUeUe(h.chromaFormatIdc, c);
    ReadUeUe(h.chromaFormatIdc, c);
    FlagRead(h.separateColourPlane, d0);
    Skip0(d0);
    SkipUeUe(h.bitDepthLumaMinus8, d1);
    SkipUeUe(h.bitDepthChromaMinus8, d2);
    FlagRead(h.transformBypass, tail);
    if h.scaling.None? {
      FlagRead(false, rest);
    } else {
      FlagRead(true, WriteScalingLists(h.scaling.value, 0, rest));
      ScalingListsRead(h.scaling.value, 0, |h.scaling.value|, rest);
    }
  }

  lemma {:induction false} SesRead(vs: seq<int>, rest: Bits)
    requires forall i :: 0 <= i < |vs| ==> IsSe(vs[i])
    ensures SkipSes(WriteSes(vs, rest), |vs|) == Got((), rest)
  {
    if vs != [] {
      SkipSeSe(vs[0], WriteSes(vs[1..], rest));
      SesRead(vs[1..], rest);
    }
  }

  lemma PocRead(s: Sps, rest: Bits)
    requires IsUe(s.log2MaxFrameNumMinus4) && PocOk(s.poc)
    ensures SkipPoc(Ue(s.log2MaxFrameNumMinus4, WritePoc(s.poc, rest))) == Got((), rest)
  {
    SkipUeUe(s.log2MaxFrameNumMinus4, WritePoc(s.poc, rest));
    match s.poc
    case Poc0(lsb) =>
      SkipUeUe(0, Ue(lsb, rest));
      SkipUeUe(lsb, rest);
    case Poc1(alwaysZero, nonRef, topToBottom, offsets) =>
      var b3 := Ue(|offsets|, WriteSes(offsets, rest));
      var b2 := Se(topToBottom, b3);
      var b1 := Se(nonRef, b2);
      SkipUeUe(1, Flag(alwaysZero, b1));
      FlagRead(alwaysZero, b1);
      SkipSeSe(nonRef, b2);
      SkipSeSe(topToBottom, b3);
      SkipUeUe(|offsets|, WriteSes(offsets, rest));
      SesRead(offsets, rest);
    case Poc2 =>
      SkipUeUe(2, rest);
  }

  lemma CropRead(c: Crop, rest: Bits)
    requires CropOk(c)
    ensures ReadCrop(WriteCrop(c, rest)) == Got(c, rest)
  {
    SkipUeUe(c.left, Ue(c.right, Ue(c.top, Ue(c.bottom, rest))));
    SkipUeUe(c.right, Ue(c.top, Ue(c.bottom, rest)));
    SkipUeUe(c.top, Ue(c.bottom, rest));
    SkipUeUe(c.bottom, rest);
  }

  function FrameOf(s: Sps): Frame {
    Frame(s.widthInMbsMinus1, s.heightInMapUnitsMinus1, s.frameMbsOnly, s.crop)
  }

  lemma FrameRead(s: Sps, rest: Bits)
    requires SpsOk(s)
    ensures ReadFrame(WriteFrame(s, rest)) == Got(Some(FrameOf(s)), rest)
  {
    var crop := if s.crop.None? then Flag(false, rest) else Flag(true, WriteCrop(s.crop.value, rest));
    var direct := Flag(s.direct8x8, crop);
    var mbs := if s.frameMbsOnly then Flag(true, direct) else Flag(false, Flag(s.mbAdaptive, direct));
    var b2 := Ue(s.heightInMapUnitsMinus1, mbs);
    var b1 := Ue(s.widthInMbsMinus1, b2);
    SkipUeUe(s.maxNumRefFrames, Flag(s.gapsAllowed, b1));
    FlagRead(s.gapsAllowed, b1);
    ReadUeUe(s.widthInMbsMinus1, b2);
    ReadUeUe(s.heightInMapUnitsMinus1, mbs);
    FlagRead(s.frameMbsOnly, if s.frameMbsOnly then direct else Flag(s.mbAdaptive, direct));
    FlagRead(s.mbAdaptive, direct);
    Skip0(direct);
    FlagRead(s.direct8x8, crop);
    if s.crop.None? {
      FlagRead(false, rest);
    } else {
      FlagRead(true, WriteCrop(s.crop.value, rest));
      CropRead(s.crop.value, rest);
    }
  }

  lemma {:induction false} CpbsRead(cs: seq<Cpb>, rest: Bits)
    requires forall i :: 0 <= i < |cs| ==> IsUe(cs[i].bitRateValueMinus1) && IsUe(cs[i].cpbSizeValueMinus1)
    ensures SkipCpbs(WriteCpbs(cs, rest), |cs|) == Got((), rest)
  {
    if cs != [] {
      var tail := WriteCpbs(cs[1..], rest);
      SkipUeUe(cs[0].bitRateValueMinus1, Ue(cs[0].cpbSizeValueMinus1, Flag(cs[0].cbr, tail)));
      SkipUeUe(cs[0].cpbSizeValueMinus1, Flag(cs[0].cbr, tail));
      FlagRead(cs[0].cbr, tail);
      CpbsRead(cs[1..], rest);
    }
  }

  lemma SkipUSum(n: nat, v: nat, m: nat, b: Bits, rest: Bits)
    requires Skip(b, m) == Got((), rest)
    ensures Skip(U(n, v, b), n + m) == Got((), rest)
  {
    assert U(n, v, b)[n + m..] == b[m..];
  }

  lemma SkipFlagSum(v: bool, m: nat, b: Bits, rest: Bits)
    requires Skip(b, m) == Got((), rest)
    ensures Skip(Flag(v, b), 1 + m) == Got((), rest)
  {
    assert Flag(v, b)[1 + m..] == b[m..];
  }

  lemma HrdLengthsRead(h: Hrd, rest: Bits)
    ensures Skip(U(5, h.initialDelayLength, U(5, h.removalDelayLength, U(5, h.outputDelayLength, U(5, h.timeOffsetLength, rest)))), 20)
         == Got((), rest)
  {
    var t3 := U(5, h.timeOffsetLength, rest);
    var t2 := U(5, h.outputDelayLength, t3);
    SkipU(5, h.timeOffsetLength, rest);
    SkipUSum(5, h.outputDelayLength, 5, t3, rest);
    SkipUSum(5, h.removalDelayLength, 10, t2, rest);
    SkipUSum(5, h.initialDelayLength, 15, U(5, h.removalDelayLength, t2), rest);
  }

  lemma HrdRead(h: Hrd, rest: Bits)
    requires HrdOk(h)
    ensures ReadHrd(WriteHrd(h, rest)) == Got(true, rest)
  {
    var lengths := U(5, h.initialDelayLength, U(5, h.removalDelayLength, U(5, h.outputDelayLength, U(5, h.timeOffsetLength, rest))));
    var cpbs := WriteCpbs(h.cpbs, lengths);
    var scales := U(4, h.bitRateScale, U(4, h.cpbSizeScale, cpbs));
    assert WriteHrd(h, rest) == Ue(|h.cpbs| - 1, scales);
    HrdLengthsRead(h, rest);
    CpbsRead(h.cpbs, lengths);
    SkipU2(4, h.bitRateScale, 4, h.cpbSizeScale, cpbs);
    HrdFrom(|h.cpbs| - 1, scales, cpbs, lengths, rest);
  }

  lemma HrdFrom(n: nat, scales: Bits, cpbs: Bits, lengths: Bits, rest: Bits)
    requires n <= 31 && Skip(scales, 8) == Got((), cpbs)
    requires SkipCpbs(cpbs, n + 1) == Got((), lengths) && Skip(lengths, 20) == Got((), rest)
    ensures ReadHrd(Ue(n, scales)) == Got(true, rest)
  {
    SkipUeUe(n, scales);
  }

  lemma OptHrdRead(h: Option<Hrd>, rest: Bits)
    requires h.Some? ==> HrdOk(h.value)
    ensures ReadOptHrd(WriteOptHrd(h, rest)) == Got((h.Some?, true), rest)
  {
    if h.None? {
      FlagRead(false, rest);
    } else {
      FlagRead(true, WriteHrd(h.value, rest));
      HrdRead(h.value, rest);
    }
  }

  lemma AspectRead(a: Option<Aspect>, rest: Bits)
    requires a.Some? ==> a.value.idc < 256
    ensures SkipAspect(WriteAspect(a, rest)) == Got((), rest)
  {
    if a.None? {
      FlagRead(false, rest);
    } else {
      var sar := if a.value.idc == 255 then U(16, a.value.sarWidth, U(16, a.value.sarHeight, rest)) else rest;
      Pow2Constants();
      FlagRead(true, U(8, a.value.idc, sar));
      ReadNU(8, a.value.idc, sar);
      SkipU2(16, a.value.sarWidth, 16, a.value.sarHeight, rest);
      Skip0(rest);
    }
  }

  lemma ColourRead(c: Option<Colour>, rest: Bits)
    ensures SkipOpt(if c.None? then Flag(false, rest)
        else Flag(true, U(8, c.value.primaries, U(8, c.value.transfer, U(8, c.value.matrix, rest)))), 24) == Got((), rest)
  {
    if c.None? {
      FlagRead(false, rest);
      Skip0(rest);
    } else {
      var c2 := U(8, c.value.matrix, rest);
      var c1 := U(8, c.value.transfer, c2);
      FlagRead(true, U(8, c.value.primaries, c1));
      SkipU(8, c.value.matrix, rest);
      SkipUSum(8, c.value.transfer, 8, c2, rest);
      SkipUSum(8, c.value.primaries, 16, c1, rest);
    }
  }

  lemma SignalRead(v: Option<VideoSignal>, rest: Bits)
    ensures SkipVideoSignal(WriteSignal(v, rest)) == Got((), rest)
  {
    if v.None? {
      FlagRead(false, rest);
    } else {
      var c := v.value.colour;
      var colour := if c.None? then Flag(false, rest)
        else Flag(true, U(8, c.value.primaries, U(8, c.value.transfer, U(8, c.value.matrix, rest))));
      FlagRead(true, U(3, v.value.format, Flag(v.value.fullRange, colour)));
      FlagRead(v.value.fullRange, colour);
      SkipUSum(3, v.value.format, 1, Flag(v.value.fullRange, colour), colour);
      ColourRead(c, rest);
    }
  }

  lemma TimingRead(t: Option<Timing>, rest: Bits)
    ensures SkipOpt(WriteTiming(t, rest), 65) == Got((), rest)
  {
    if t.None? {
      Skip0(rest);
    } else {
      var b1 := Flag(t.value.fixedRate, rest);
      FlagRead(t.value.fixedRate, rest);
      SkipUSum(32, t.value.timeScale, 1, b1, rest);
      SkipUSum(32, t.value.numUnitsInTick, 33, U(32, t.value.timeScale, b1), rest);
      FlagRead(true, U(32, t.value.numUnitsInTick, U(32, t.value.timeScale, b1)));
    }
  }

  /** Ten bits are skipped for the two chroma sample locations; section E.1.1 codes each as ue(v). */
  predicate ChromaLocFits(c: Option<ChromaLoc>) {
    c.Some? ==> 2 * Log2(c.value.top + 1) + 1 + 2 * Log2(c.value.bottom + 1) + 1 == 10
  }

  lemma ChromaLocRead(c: Option<ChromaLoc>, rest: Bits)
    requires ChromaLocFits(c)
    ensures SkipOpt(WriteChromaLoc(c, rest), 10) == Got((), rest)
  {
    if c.None? {
      Skip0(rest);
    } else {
      var b := Ue(c.value.top, Ue(c.value.bottom, rest));
      FlagRead(true, b);
      UeDrop(c.value.bottom, rest);
      UeDrop(c.value.top, Ue(c.value.bottom, rest));
      var n := 2 * Log2(c.value.top + 1) + 1;
      assert b[10..] == b[n..][10 - n..];
    }
  }

  lemma UeDrop(k: nat, rest: Bits)
    ensures Ue(k, rest)[2 * Log2(k + 1) + 1..] == rest
  {
  }

  lemma VuiHeadRead(v: Vui, rest: Bits)
    requires (v.aspect.Some? ==> v.aspect.value.idc < 256) && ChromaLocFits(v.chromaLoc)
    ensures SkipVuiHead(WriteVuiHead(v, rest)) == Got((), rest)
  {
    var timing := WriteTiming(v.timing, rest);
    var chroma := WriteChromaLoc(v.chromaLoc, timing);
    var signal := WriteSignal(v.signal, chroma);
    var overscan := if v.overscan.None? then Flag(false, signal) else Flag(true, Flag(v.overscan.value, signal));
    AspectRead(v.aspect, overscan);
    OverscanRead(v.overscan, signal);
    SignalRead(v.signal, chroma);
    ChromaLocRead(v.chromaLoc, timing);
    TimingRead(v.timing, rest);
  }

  lemma OverscanRead(o: Option<bool>, rest: Bits)
    ensures SkipOpt(if o.None? then Flag(false, rest) else Flag(true, Flag(o.value, rest)), 1) == Got((), rest)
  {
    if o.None? {
      Skip0(rest);
    } else {
      FlagRead(true, Flag(o.value, rest));
      FlagRead(o.value, rest);
    }
  }

  lemma RestrictionRead(o: Option<Restriction>, rest: Bits)
    requires o.Some? ==>
      var r := o.value;
      && IsUe(r.maxBytesPerPic) && IsUe(r.maxBitsPerMb) && IsUe(r.log2MaxMvHorizontal)
      && IsUe(r.log2MaxMvVertical) && IsUe(r.numReorder) && IsUe(r.maxDecBuffering)
    ensures SkipRestriction(WriteRestriction(o, rest)) == Got((), rest)
  {
    if o.None? {
      FlagRead(false, rest);
    } else {
      var r := o.value;
      var b5 := Ue(r.maxDecBuffering, rest);
      var b4 := Ue(r.numReorder, b5);
      var b3 := Ue(r.log2MaxMvVertical, b4);
      var b2 := Ue(r.log2MaxMvHorizontal, b3);
      var b1 := Ue(r.maxBitsPerMb, b2);
      var b0 := Ue(r.maxBytesPerPic, b1);
      FlagRead(true, Flag(r.mvOverBoundaries, b0));
      FlagRead(r.mvOverBoundaries, b0);
      SkipUeUe(r.maxBytesPerPic, b1);
      SkipUeUe(r.maxBitsPerMb, b2);
      SkipUeUe(r.log2MaxMvHorizontal, b3);
      SkipUeUe(r.log2MaxMvVertical, b4);
      SkipUeUe(r.numReorder, b5);
      SkipUeUe(r.maxDecBuffering, rest);
    }
  }

  lemma VuiRead(v: Vui, rest: Bits)
    requires VuiOk(v) && ChromaLocFits(v.chromaLoc)
    ensures ReadVui(WriteVui(v, rest)) == Got(true, rest)
  {
    hide SkipVuiHead, WriteVuiHead, WriteOptHrd, ReadOptHrd, SkipRestriction, WriteRestriction;
    var restriction := WriteRestriction(v.restriction, rest);
    var tail := Flag(v.picStruct, restriction);
    var delay := if v.nalHrd.Some? || v.vclHrd.Some? then Flag(v.lowDelay, tail) else tail;
    var vcl := WriteOptHrd(v.vclHrd, delay);
    VuiHeadRead(v, WriteOptHrd(v.nalHrd, vcl));
    OptHrdRead(v.nalHrd, vcl);
    OptHrdRead(v.vclHrd, delay);
    FlagRead(v.lowDelay, tail);
    Skip0(tail);
    FlagRead(v.picStruct, restriction);
    RestrictionRead(v.restriction, rest);
  }

  /** The chroma format the parser works with. */
  function ChromaFormat(s: Sps): nat {
    if HighProfile(s.profileIdc) then s.high.chromaFormatIdc else 1
  }

  lemma BodyRead(s: Sps, tail: Bits)
    requires SpsOk(s)
    ensures ParseBody(Ue(s.log2MaxFrameNumMinus4, WritePoc(s.poc, WriteFrame(s, tail))), ChromaFormat(s))
         == ParseTail(tail, FrameOf(s), ChromaFormat(s))
  {
    PocRead(s, WriteFrame(s, tail));
    FrameRead(s, tail);
  }

  /** The parser looks for the chroma fields in exactly the profiles that have them. */
  lemma ProfilesAgree(profileIdc: nat)
    ensures HighProfile(profileIdc) <==> HasChromaFields(profileIdc)
  {
  }

  /** Reading back everything in front of the VUI flag. */
  lemma FrontRead(s: Sps, tail: Bits)
    requires SpsOk(s)
    ensures Parse(WriteFront(s, tail)) == ParseTail(tail, FrameOf(s), ChromaFormat(s))
  {
    hide WriteHigh, WritePoc, WriteFrame, ParseTail, Ue;
    var body := Ue(s.log2MaxFrameNumMinus4, WritePoc(s.poc, WriteFrame(s, tail)));
    ProfilesAgree(s.profileIdc);
    hide HighProfile, HasChromaFields;
    HeadRead(s, if HasChromaFields(s.profileIdc) then WriteHigh(s.high, body) else body);
    if HasChromaFields(s.profileIdc) {
      HighRead(s.high, body);
    }
    BodyRead(s, tail);
  }

  lemma SpsRead(s: Sps, rest: Bits)
    requires SpsOk(s)
    ensures var tail := if s.vui.None? then Flag(false, rest) else Flag(true, WriteVui(s.vui.value, rest));
      Parse(WriteSps(s, rest)) == ParseTail(tail, FrameOf(s), ChromaFormat(s))
  {
    hide WriteFront, WriteVui;
    FrontRead(s, if s.vui.None? then Flag(false, rest) else Flag(true, WriteVui(s.vui.value, rest)));
  }

  /** chroma_format_idc is rejected exactly if it is none of the four that section 7.4.2.1.1 defines, whatever follows. */
  lemma ChromaRejected(chromaFormatIdc: nat, tail: Bits)
    requires IsUe(chromaFormatIdc)
    ensures ReadHigh(Ue(chromaFormatIdc, tail)) == Got(None, tail) <==> chromaFormatIdc > 3
  {
    hide Ue;
    ReadUeUe(chromaFormatIdc, tail);
  }

  // ---------- 32-bit arithmetic ----------

  predicate Congruent(x: int, y: int) { (x - y) % M32 == 0 }

  lemma W32Congruent(x: int)
    ensures Congruent(W32(x), x)
  {
  }

  lemma CongruentSub(a: int, b: int, x: int, y: int)
    requires Congruent(a, x) && Congruent(b, y)
    ensures Congruent(a - b, x - y)
  {
  }

  lemma CongruentMul(a: int, x: int, k: int)
    requires Congruent(a, x)
    ensures Congruent(a * k, x * k)
  {
    var q := (a - x) / M32;
    assert a - x == M32 * q;
    assert a * k - x * k == (a - x) * k == M32 * (q * k);
    ModShift(0, q * k, M32);
  }

  lemma CongruentTrans(a: int, b: int, c: int)
    requires Congruent(a, b) && Congruent(b, c)
    ensures Congruent(a, c)
  {
  }

  lemma CongruentMod16(a: int, x: int)
    requires Congruent(a, x)
    ensures a % 0x1_0000 == x % 0x1_0000
  {
    var q := (a - x) / M32;
    ModShift(x, 0x1_0000 * q, 0x1_0000);
  }

  /** One side of the picture: n units of k samples, less c units of u, all wrapped to 32 bits. */
  lemma SideExact(n: nat, k: nat, c: nat, u: nat)
    ensures W32(Extent(n, k) - Extent(c, u)) % 0x1_0000 == (n * k - c * u) % 0x1_0000
    ensures Extent(n, k) % 0x1_0000 == (n * k) % 0x1_0000
  {
    ExtentCongruent(n, k);
    ExtentCongruent(c, u);
    var d := Extent(n, k) - Extent(c, u);
    CongruentSub(Extent(n, k), Extent(c, u), n * k, c * u);
    W32Congruent(d);
    CongruentTrans(W32(d), d, n * k - c * u);
    CongruentMod16(W32(d), n * k - c * u);
    CongruentMod16(Extent(n, k), n * k);
  }

  lemma ExtentCongruent(n: nat, k: nat)
    ensures Congruent(Extent(n, k), n * k)
  {
    W32Congruent(n);
    CongruentMul(W32(n), n, k);
    W32Congruent(W32(n) * k);
    CongruentTrans(Extent(n, k), W32(n) * k, n * k);
  }

  /** The stored size is the cropping rectangle of section 7.4.2.1.1 modulo 2^16. */
  lemma SizeExact(s: Sps)
    requires SpsOk(s)
    ensures FrameSize(FrameOf(s), ChromaFormat(s)) == (StdSize(s).0 % 0x1_0000, StdSize(s).1 % 0x1_0000)
  {
    WidthExact(s);
    HeightExact(s);
  }

  lemma WidthExact(s: Sps)
    requires SpsOk(s)
    ensures FrameSize(FrameOf(s), ChromaFormat(s)).0 == StdSize(s).0 % 0x1_0000
  {
    var c := if s.crop.None? then Crop(0, 0, 0, 0) else s.crop.value;
    SideExact(s.widthInMbsMinus1 + 1, 16, c.left + c.right, if SubWidth(ChromaFormat(s)) == 1 then 1 else 2);
  }

  lemma HeightExact(s: Sps)
    requires SpsOk(s)
    ensures FrameSize(FrameOf(s), ChromaFormat(s)).1 == StdSize(s).1 % 0x1_0000
  {
    var n, m := s.heightInMapUnitsMinus1 + 1, CropHeight(s);
    var halved := SubHeight(ChromaFormat(s)) == 2;
    StdHeight(s);
    CodeHeight(s);
    hide StdSize, FrameSize;
    if s.frameMbsOnly {
      if halved { SideExact(n, 16, m, 2); } else { SideExact(n, 16, m, 1); }
    } else {
      if halved { SideExact(n, 32, m, 4); } else { SideExact(n, 32, m, 2); }
    }
  }

  function CropHeight(s: Sps): nat {
    if s.crop.None? then 0 else s.crop.value.top + s.crop.value.bottom
  }

  lemma StdHeight(s: Sps)
    requires SpsOk(s)
    ensures var n, m := s.heightInMapUnitsMinus1 + 1, CropHeight(s);
      StdSize(s).1 == if s.frameMbsOnly then (if SubHeight(ChromaFormat(s)) == 2 then n * 16 - m * 2 else n * 16 - m * 1)
                      else (if SubHeight(ChromaFormat(s)) == 2 then n * 32 - m * 4 else n * 32 - m * 2)
  {
  }

  lemma CodeHeight(s: Sps)
    requires SpsOk(s)
    ensures var n, m := s.heightInMapUnitsMinus1 + 1, CropHeight(s);
      FrameSize(FrameOf(s), ChromaFormat(s)).1 ==
        if s.crop.None? then Extent(n, if s.frameMbsOnly then 16 else 32) % 0x1_0000
        else if s.frameMbsOnly then
          W32(Extent(n, 16) - (if SubHeight(ChromaFormat(s)) == 2 then Extent(m, 2) else Extent(m, 1))) % 0x1_0000
        else
          W32(Extent(n, 32) - (if SubHeight(ChromaFormat(s)) == 2 then Extent(m, 4) else Extent(m, 2))) % 0x1_0000
  {
  }

  // ---------- the theorems ----------

  /** sps_parse_dimension_h264 on a byte string. */
  function ParseBytes(data: seq<byte>): Parsed {
    Parse(BytesBits(Payload(data, 0, 0)))
  }

  /** The NAL unit: the bits packed into bytes, with emulation-prevention bytes put in. */
  function NalUnit(bits: Bits): seq<byte>
    requires |bits| % 8 == 0
  {
    Escape(Pack(bits), 0)
  }

  lemma NalUnitBits(bits: Bits)
    requires |bits| % 8 == 0
    ensures BytesBits(Payload(NalUnit(bits), 0, 0)) == bits
  {
    ReadEscaped([], Pack(bits), 0);
    assert [] + NalUnit(bits) == NalUnit(bits);
    UnpackPack(bits);
  }

  lemma TailRead(s: Sps, rest: Bits)
    requires SpsOk(s) && (s.vui.Some? ==> ChromaLocFits(s.vui.value.chromaLoc))
    ensures var tail := if s.vui.None? then Flag(false, rest) else Flag(true, WriteVui(s.vui.value, rest));
      var size := FrameSize(FrameOf(s), ChromaFormat(s));
      ParseTail(tail, FrameOf(s), ChromaFormat(s)) == Size(size.0, size.1)
  {
    if s.vui.None? {
      FlagRead(false, rest);
    } else {
      FlagRead(true, WriteVui(s.vui.value, rest));
      VuiRead(s.vui.value, rest);
    }
  }

  /** Round trip: every conforming parameter set whose chroma sample locations, if any, take ten bits is read
      back with the size of its cropping rectangle modulo 2^16, so with that size exactly if it fits 16 bits.
      `rest` is what follows seq_parameter_set_data: trailing bits, and anything behind them. */
  lemma H264RoundTrip(s: Sps, rest: Bits)
    requires SpsOk(s) && |WriteSps(s, rest)| % 8 == 0
    requires s.vui.Some? ==> ChromaLocFits(s.vui.value.chromaLoc)
    ensures ParseBytes(NalUnit(WriteSps(s, rest))) == Size(StdSize(s).0 % 0x1_0000, StdSize(s).1 % 0x1_0000)
    ensures IsSize(ParseBytes(NalUnit(WriteSps(s, rest))), StdSize(s)) <==> Fits(StdSize(s))
  {
    NalUnitBits(WriteSps(s, rest));
    SpsRead(s, rest);
    TailRead(s, rest);
    SizeExact(s);
    SizeFits(ParseBytes(NalUnit(WriteSps(s, rest))), StdSize(s));
  }

  predicate IsSize(p: Parsed, size: (int, int)) {
    p.Size? && p.width as int == size.0 && p.height as int == size.1
  }

  predicate Fits(size: (int, int)) {
    0 <= size.0 < 0x1_0000 && 0 <= size.1 < 0x1_0000
  }

  lemma SizeFits(p: Parsed, size: (int, int))
    requires p == Size(size.0 % 0x1_0000, size.1 % 0x1_0000)
    ensures IsSize(p, size) <==> Fits(size)
  {
  }

  /** Even where the chroma sample locations are misread, a size that is reported is the right one. */
  lemma H264NeverWrong(s: Sps, rest: Bits)
    requires SpsOk(s) && |WriteSps(s, rest)| % 8 == 0
    ensures var p := ParseBytes(NalUnit(WriteSps(s, rest)));
      p.Size? ==> p == Size(StdSize(s).0 % 0x1_0000, StdSize(s).1 % 0x1_0000)
  {
    NalUnitBits(WriteSps(s, rest));
    SpsRead(s, rest);
    SizeExact(s);
  }
}
