/** The chroma sample locations of the VUI: skip_vui_parameters skips ten bits where section E.1.1 of ITU-T H.264
    has two ue(v) codes. */
module SpsChroma {
  import opened SpsBits
  import opened SpsSyntax
  import opened SpsH264
  import opened SpsH264Proof

  // ---------- when the ten bits are right ----------

  lemma Log2Small(n: nat)
    requires 0 < n <= 6
    ensures Log2(n) == if n == 1 then 0 else if n <= 3 then 1 else 2
  {
    assert Pow2(1) == 2 && Pow2(2) == 4 && Pow2(3) == 8;
    Log2Is(n, if n == 1 then 0 else if n <= 3 then 1 else 2);
  }

  /** Whatever follows, the parser is behind the sample locations exactly if their codes take ten bits together. */
  lemma ChromaLocReadExactly(c: ChromaLoc, rest: Bits)
    ensures SkipOpt(WriteChromaLoc(Some(c), rest), 10) == Got((), rest) <==> ChromaLocFits(Some(c))
  {
    if ChromaLocFits(Some(c)) {
      ChromaLocRead(Some(c), rest);
    } else {
      FlagRead(true, Ue(c.top, Ue(c.bottom, rest)));
    }
  }

  /** Of the values that the standard allows these are the locations from 3 to 5. */
  lemma ChromaLocFitsExactly(c: ChromaLoc, rest: Bits)
    requires c.top <= 5 && c.bottom <= 5
    ensures SkipOpt(WriteChromaLoc(Some(c), rest), 10) == Got((), rest) <==> c.top >= 3 && c.bottom >= 3
  {
    ChromaLocReadExactly(c, rest);
    Log2Small(c.top + 1);
    Log2Small(c.bottom + 1);
  }

  // ---------- conforming parameter sets that are rejected ----------

  /** A num_units_in_tick whose bits, read from the eighth on, say: no timing information, HRD parameters,
      and cpb_cnt_minus1 == 32. */
  const TICK_BITS: Bits := Falses(7) + [false, true] + Ue(32, Falses(12))

  lemma UeExtends(k: nat, x: Bits, y: Bits)
    ensures Ue(k, x) + y == Ue(k, x + y)
  {
  }

  lemma Log2Of33()
    ensures Log2(33) == 5
  {
    Pow2Constants();
    assert Pow2(5) == 32 && Pow2(6) == 64;
    Log2Is(33, 5);
  }

  lemma TickLength()
    ensures |TICK_BITS| == 32
  {
    Log2Of33();
  }

  /** What is left of the timing information when eight bits too many have been skipped. */
  lemma MisreadTiming(t: Timing, rest: Bits)
    requires t.numUnitsInTick == Val(TICK_BITS)
    ensures
      var left := Falses(12) + U(32, t.timeScale, Flag(t.fixedRate, rest));
      Skip(WriteTiming(Some(t), rest), 8) == Got((), Flag(false, Flag(true, Ue(32, left))))
  {
    hide Ue, U, Fixed, Val;
    var tail := U(32, t.timeScale, Flag(t.fixedRate, rest));
    TickLength();
    FixedVal(TICK_BITS);
    UeExtends(32, Falses(12), tail);
    Parts(Ue(32, Falses(12)), tail);
    UOf(32, t.numUnitsInTick, tail);
  }

  lemma UOf(n: nat, v: nat, rest: Bits)
    ensures U(n, v, rest) == Fixed(n, v) + rest
  {
  }

  lemma Parts(u: Bits, tail: Bits)
    ensures
      var b := [true] + (Falses(7) + [false, true] + u + tail);
      Skip(b, 8) == Got((), Flag(false, Flag(true, u + tail)))
  {
    var b := [true] + (Falses(7) + [false, true] + u + tail);
    assert b[8..] == [false, true] + u + tail;
    assert [false, true] + u + tail == [false] + ([true] + (u + tail));
  }

  /** With locations (0, 0) the parser goes eight bits too far. */
  lemma MisreadLocations(timing: Bits)
    requires |timing| >= 8
    ensures SkipOpt(WriteChromaLoc(Some(ChromaLoc(0, 0)), timing), 10) == Skip(timing, 8)
  {
    Log2Small(1);
    UeZero(timing);
    UeZero(Ue(0, timing));
    var b := Ue(0, Ue(0, timing));
    FlagRead(true, b);
    assert b == [true, true] + timing;
    assert b[10..] == timing[8..];
  }

  lemma UeZero(rest: Bits)
    ensures Ue(0, rest) == [true] + rest
  {
    Log2Small(1);
  }

  /** VUI parameters that the parser takes for more than 32 CPBs. */
  predicate Misleading(v: Vui) {
    v.chromaLoc == Some(ChromaLoc(0, 0)) && v.timing.Some? && v.timing.value.numUnitsInTick == Val(TICK_BITS)
  }

  lemma MisreadHead(v: Vui, rest: Bits)
    requires (v.aspect.Some? ==> v.aspect.value.idc < 256) && Misleading(v)
    ensures
      var left := Falses(12) + U(32, v.timing.value.timeScale, Flag(v.timing.value.fixedRate, rest));
      SkipVuiHead(WriteVuiHead(v, rest)) == Got((), Flag(true, Ue(32, left)))
  {
    var timing := WriteTiming(v.timing, rest);
    var chroma := WriteChromaLoc(v.chromaLoc, timing);
    var signal := WriteSignal(v.signal, chroma);
    var left := Falses(12) + U(32, v.timing.value.timeScale, Flag(v.timing.value.fixedRate, rest));
    AspectRead(v.aspect, if v.overscan.None? then Flag(false, signal) else Flag(true, Flag(v.overscan.value, signal)));
    OverscanRead(v.overscan, signal);
    SignalRead(v.signal, chroma);
    MisreadTiming(v.timing.value, rest);
    MisreadLocations(timing);
    FlagRead(false, Flag(true, Ue(32, left)));
    Skip0(Flag(true, Ue(32, left)));
  }

  lemma MisreadVui(v: Vui, rest: Bits)
    requires VuiOk(v) && Misleading(v)
    ensures ReadVui(WriteVui(v, rest)).Got? && !ReadVui(WriteVui(v, rest)).value
  {
    var tail := Flag(v.picStruct, WriteRestriction(v.restriction, rest));
    var delay := if v.nalHrd.Some? || v.vclHrd.Some? then Flag(v.lowDelay, tail) else tail;
    var hrds := WriteOptHrd(v.nalHrd, WriteOptHrd(v.vclHrd, delay));
    var left := Falses(12) + U(32, v.timing.value.timeScale, Flag(v.timing.value.fixedRate, hrds));
    MisreadHead(v, hrds);
    ReadUeUe(32, left);
    FlagRead(true, Ue(32, left));
  }

  /** Conforming parameter sets that sps_parse_dimension_h264 rejects, whatever else they say and whatever follows. */
  lemma ConformingRejected(s: Sps, rest: Bits)
    requires SpsOk(s) && s.vui.Some? && Misleading(s.vui.value) && |WriteSps(s, rest)| % 8 == 0
    ensures ParseBytes(NalUnit(WriteSps(s, rest))) == Rejected
  {
    NalUnitBits(WriteSps(s, rest));
    SpsRead(s, rest);
    MisreadVui(s.vui.value, rest);
    FlagRead(true, WriteVui(s.vui.value, rest));
  }

  // ---------- one of them ----------

  /** 1920 by 1088 luma samples, baseline profile, and the given num_units_in_tick. */
  function SampleSps(ticks: nat): Sps {
    Sps(0x67, 66, 0, 40, 0, High(1, false, 0, 0, false, None), 0, Poc0(0), 0, false, 119, 67, true, false, false, None,
        Some(SampleVui(ticks)))
  }

  function SampleVui(ticks: nat): Vui {
    Vui(None, None, None, Some(ChromaLoc(0, 0)), Some(Timing(ticks, 50_000_000, true)), None, None, false, false, None)
  }

  /** It is conforming, its size fits, and it takes 18 bytes. */
  lemma SampleConforms(ticks: nat, rest: Bits)
    ensures SpsOk(SampleSps(ticks)) && StdSize(SampleSps(ticks)) == (1920, 1088) && Fits(StdSize(SampleSps(ticks)))
    ensures |WriteSps(SampleSps(ticks), rest)| == 144 + |rest|
  {
    SampleVuiLength(ticks, rest);
    SampleFrameLength(ticks, Flag(true, WriteVui(SampleVui(ticks), rest)));
    Log2Small(1);
  }

  /** With the bits above it is rejected. */
  lemma SampleRejected(ticks: nat, rest: Bits)
    requires ticks == Val(TICK_BITS) && SpsOk(SampleSps(ticks)) && |WriteSps(SampleSps(ticks), rest)| % 8 == 0
    ensures ParseBytes(NalUnit(WriteSps(SampleSps(ticks), rest))) == Rejected
  {
    hide WriteSps, ParseBytes, NalUnit, SpsOk, Val;
    ConformingRejected(SampleSps(ticks), rest);
  }

  lemma SampleVuiLength(ticks: nat, rest: Bits)
    ensures |WriteVui(SampleVui(ticks), rest)| == 76 + |rest|
  {
    Log2Small(1);
  }

  lemma SampleFrameLength(ticks: nat, rest: Bits)
    ensures |WriteFrame(SampleSps(ticks), rest)| == 31 + |rest|
  {
    Log2Small(1);
    assert Pow2(6) == 64 && Pow2(7) == 128;
    Log2Is(120, 6);
    Log2Is(68, 6);
  }
}
