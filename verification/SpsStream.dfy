/** An actual stream: the High profile parameter set of media/sps-parser/sps_parser_tests.c. */
module SpsStream {
  import opened SpsBits
  import opened SpsSyntax
  import opened SpsH264
  import opened SpsH264Proof

  /** The NAL unit behind its start code. */
  const STREAM: seq<byte> :=
    [0x67, 0x64, 0x00, 0x2a, 0xac, 0x2b, 0x40, 0x3c, 0x01, 0x13, 0xf2, 0xe0, 0x2d, 0x41, 0x81, 0x81, 0xa9, 0x40] + REMAINDER

  const REMAINDER: seq<byte> := [0x00, 0x00, 0xfa, 0x00, 0x00, 0x75, 0x30, 0x23, 0xc7, 0x0a, 0xa8]

  // ---------- bits ----------

  lemma {:induction false} NothingDropped(data: seq<byte>, k: nat, zeroes: nat)
    requires k <= |data| && 3 !in data
    ensures Payload(data, k, zeroes) == data[k..]
    decreases |data| - k
  {
    if k < |data| {
      NothingDropped(data, k + 1, if data[k] == 0 then zeroes + 1 else 0);
      assert data[k] in data && data[k..] == [data[k]] + data[k + 1..];
    }
  }

  lemma {:induction false} BytesBitsConcat(a: seq<byte>, b: seq<byte>)
    ensures BytesBits(a + b) == BytesBits(a) + BytesBits(b)
  {
    if a == [] {
      assert a + b == b;
    } else {
      assert (a + b)[1..] == a[1..] + b;
      BytesBitsConcat(a[1..], b);
    }
  }

  lemma Bits8(b: byte, x: Bits)
    requires |x| == 8 && Val(x) == b
    ensures ByteBits(b) == x
  {
    FixedVal(x);
  }

  lemma ValOf6(x5: bool, x4: bool, x3: bool, x2: bool, x1: bool, x0: bool)
    ensures Val([x5, x4, x3, x2, x1, x0]) == 32 * Bit(x5) + 16 * Bit(x4) + 8 * Bit(x3) + 4 * Bit(x2) + 2 * Bit(x1) + Bit(x0)
  {
    hide Val, Bit;
    var a, b, c, d, e := [x5], [x5, x4], [x5, x4, x3], [x5, x4, x3, x2], [x5, x4, x3, x2, x1];
    assert [] + [x5] == a && a + [x4] == b && b + [x3] == c && c + [x2] == d && d + [x1] == e;
    assert e + [x0] == [x5, x4, x3, x2, x1, x0];
    ValSnoc([], x5);
    ValSnoc(a, x4);
    ValSnoc(b, x3);
    ValSnoc(c, x2);
    ValSnoc(d, x1);
    ValSnoc(e, x0);
    ValNone();
  }

  lemma ValNone()
    ensures Val([]) == 0
  {
  }

  lemma ValOf8(x7: bool, x6: bool, x5: bool, x4: bool, x3: bool, x2: bool, x1: bool, x0: bool)
    ensures Val([x7, x6, x5, x4, x3, x2, x1, x0])
         == 128 * Bit(x7) + 64 * Bit(x6) + 32 * Bit(x5) + 16 * Bit(x4) + 8 * Bit(x3) + 4 * Bit(x2) + 2 * Bit(x1) + Bit(x0)
  {
    hide Val, Bit;
    var a, b := [x7, x6, x5, x4, x3, x2], [x7, x6, x5, x4, x3, x2, x1];
    assert a + [x1] == b && b + [x0] == [x7, x6, x5, x4, x3, x2, x1, x0];
    ValOf6(x7, x6, x5, x4, x3, x2);
    ValSnoc(a, x1);
    ValSnoc(b, x0);
  }

  lemma ValSnoc(x: Bits, b: bool)
    ensures Val(x + [b]) == 2 * Val(x) + Bit(b)
  {
    assert (x + [b])[..|x|] == x;
  }

  /** A byte, bit by bit. */
  lemma ByteIs(b: byte, x7: bool, x6: bool, x5: bool, x4: bool, x3: bool, x2: bool, x1: bool, x0: bool)
    requires b == 128 * Bit(x7) + 64 * Bit(x6) + 32 * Bit(x5) + 16 * Bit(x4) + 8 * Bit(x3) + 4 * Bit(x2) + 2 * Bit(x1) + Bit(x0)
    ensures ByteBits(b) == [x7, x6, x5, x4, x3, x2, x1, x0]
  {
    ValOf8(x7, x6, x5, x4, x3, x2, x1, x0);
    Bits8(b, [x7, x6, x5, x4, x3, x2, x1, x0]);
  }

  lemma Cat(a: Bits, b: Bits, r: Bits)
    ensures a + (b + r) == a + b + r
  {
  }

  lemma CodeLength(k: nat, z: nat, suffix: Bits)
    requires |suffix| == z && k + 1 == Pow2(z) + Val(suffix)
    ensures Log2(k + 1) == z && k + 1 - Pow2(z) == Val(suffix)
  {
    assert Pow2(z + 1) == 2 * Pow2(z);
    hide Pow2, Val, Log2;
    Log2Is(k + 1, z);
  }

  /** A code number and its code. */
  lemma UeIs(k: nat, z: nat, suffix: Bits, rest: Bits)
    requires |suffix| == z && k + 1 == Pow2(z) + Val(suffix)
    ensures Ue(k, rest) == Falses(z) + [true] + suffix + rest
  {
    hide Pow2, Val, Log2, Fixed, Falses;
    CodeLength(k, z, suffix);
    FixedVal(suffix);
    assert Ue(k, rest) == Falses(z) + ([true] + (suffix + rest));
    Cat(Falses(z), [true], suffix + rest);
    Cat(Falses(z) + [true], suffix, rest);
  }

  lemma SmallCodes(rest: Bits)
    ensures Ue(0, rest) == [true] + rest
    ensures Ue(1, rest) == [false, true, false] + rest
    ensures Ue(2, rest) == [false, true, true] + rest
    ensures Ue(4, rest) == [false, false, true, false, true] + rest
  {
    assert Val([false]) == 0 && Val([true]) == 1;
    ValSnoc([false], true);
    assert [false] + [true] == [false, true];
    assert Pow2(1) == 2 && Pow2(2) == 4;
    UeIs(0, 0, [], rest);
    UeIs(1, 1, [false], rest);
    UeIs(2, 1, [true], rest);
    UeIs(4, 2, [false, true], rest);
  }

  lemma SizeCodes(rest: Bits)
    ensures Ue(119, rest) == [false, false, false, false, false, false, true, true, true, true, false, false, false] + rest
    ensures Ue(67, rest) == [false, false, false, false, false, false, true, false, false, false, true, false, false] + rest
  {
    ValOf6(true, true, true, false, false, false);
    ValOf6(false, false, false, true, false, false);
    SixZeroes([true, true, true, false, false, false]);
    SixZeroes([false, false, false, true, false, false]);
    assert Pow2(6) == 64;
    hide Ue, Val, Pow2;
    UeIs(119, 6, [true, true, true, false, false, false], rest);
    UeIs(67, 6, [false, false, false, true, false, false], rest);
  }

  lemma SixZeroes(x: Bits)
    requires |x| == 6
    ensures Falses(6) + [true] + x == [false, false, false, false, false, false, true, x[0], x[1], x[2], x[3], x[4], x[5]]
  {
    assert Falses(6) == [false, false, false, false, false, false];
  }

  // ---------- the stream as the standard's syntax ----------

  /** 120 by 68 macroblocks, of which eight rows of samples are cropped. */
  const SPS := Sps(0x67, 100, 0, 42, 0, High(1, false, 0, 0, false, None), 4, Poc2, 1, false, 119, 67, true, false, true,
                   Some(Crop(0, 0, 0, 4)), None)

  lemma UByte(b: byte, r: Bits)
    ensures U(8, b, r) == ByteBits(b) + r
  {
  }

  /** Eight bits that are zero, in two parts. */
  lemma UZeroes(r: Bits)
    ensures U(6, 0, U(2, 0, r)) == ByteBits(0) + r
  {
    ByteIs(0, false, false, false, false, false, false, false, false);
    ValOf6(false, false, false, false, false, false);
    FixedVal([false, false, false, false, false, false]);
    assert Fixed(2, 0) == [false, false];
    hide Fixed;
    Cat(Fixed(6, 0), Fixed(2, 0), r);
    assert Fixed(6, 0) + Fixed(2, 0) == ByteBits(0);
  }

  lemma HeaderBits(r: Bits)
    ensures U(8, 0x67, U(8, 100, U(6, 0, U(2, 0, U(8, 42, r))))) == BytesBits([0x67, 0x64, 0x00, 0x2a]) + r
  {
    hide U, ByteBits, BytesBits;
    UByte(42, r);
    UZeroes(ByteBits(42) + r);
    UByte(100, ByteBits(0) + (ByteBits(42) + r));
    UByte(0x67, ByteBits(100) + (ByteBits(0) + (ByteBits(42) + r)));
    FourBytes(0x67, 0x64, 0x00, 0x2a);
    Cat4(ByteBits(0x67), ByteBits(0x64), ByteBits(0x00), ByteBits(0x2a), r);
  }

  lemma Cat4(a: Bits, b: Bits, c: Bits, d: Bits, r: Bits)
    ensures a + (b + (c + (d + r))) == a + b + c + d + r
  {
    Cat(c, d, r);
    Cat(b, c + d, r);
    Cat(a, b + (c + d), r);
    Cat(b, c, d);
    Cat(a, b + c, d);
    Cat(a, b, c);
  }

  lemma FourBytes(a: byte, b: byte, c: byte, d: byte)
    ensures BytesBits([a, b, c, d]) == ByteBits(a) + ByteBits(b) + ByteBits(c) + ByteBits(d)
  {
    hide ByteBits;
    assert [a, b, c, d][1..] == [b, c, d] && [b, c, d][1..] == [c, d] && [c, d][1..] == [d] && [d][1..] == [];
    assert BytesBits([d]) == ByteBits(d) + [];
    assert BytesBits([c, d]) == ByteBits(c) + ByteBits(d);
    assert BytesBits([b, c, d]) == ByteBits(b) + (ByteBits(c) + ByteBits(d));
    Cat4(ByteBits(a), ByteBits(b), ByteBits(c), ByteBits(d), []);
    assert ByteBits(d) + [] == ByteBits(d);
    assert ByteBits(a) + ByteBits(b) + ByteBits(c) + ByteBits(d) + [] == ByteBits(a) + ByteBits(b) + ByteBits(c) + ByteBits(d);
  }

  /** seq_parameter_set_id and the chroma fields. */
  lemma ChromaBits(r: Bits)
    ensures Ue(0, WriteHigh(SPS.high, r)) == ByteBits(0xac) + r
  {
    hide Ue, ByteBits;
    ByteIs(0xac, true, false, true, false, true, true, false, false);
    var flags := [false, false] + r;
    assert Flag(false, Flag(false, r)) == flags;
    assert WriteHigh(SPS.high, r) == Ue(1, Ue(0, Ue(0, flags)));
    SmallCodes(flags);
    SmallCodes([true] + flags);
    SmallCodes([true] + ([true] + flags));
    var c: Bits := [false, true, false];
    SmallCodes(c + ([true] + ([true] + flags)));
    Cat4(c, [true], [true], [false, false], r);
    assert c + [true] + [true] + [false, false] == [false, true, false, true, true, false, false];
    Cat([true], [false, true, false, true, true, false, false], r);
  }

  /** log2_max_frame_num_minus4 and pic_order_cnt_type. */
  lemma PocBits(r: Bits)
    ensures Ue(4, WritePoc(Poc2, r)) == ByteBits(0x2b) + r
  {
    hide Ue, ByteBits;
    ByteIs(0x2b, false, false, true, false, true, false, true, true);
    SmallCodes(r);
    SmallCodes([false, true, true] + r);
    Cat([false, false, true, false, true], [false, true, true], r);
  }

  /** max_num_ref_frames to the cropping window. */
  lemma FrameBits(tail: Bits)
    ensures WriteFrame(SPS, tail) == BytesBits([0x40, 0x3c, 0x01, 0x13]) + ByteBits(0xf2) + [true] + tail
  {
    hide Ue, ByteBits, BytesBits, WriteCrop;
    var flags: Bits := [true, true, true];
    var crop: Bits := [true, true, true, false, false, true, false, true];
    CropBits(tail);
    assert Flag(true, Flag(true, Flag(true, crop + tail))) == flags + (crop + tail);
    FrameHead(flags + (crop + tail));
    ByteIs(0x13, false, false, false, true, false, false, true, true);
    ByteIs(0xf2, true, true, true, true, false, false, true, false);
    FourBytes(0x40, 0x3c, 0x01, 0x13);
    EndOfFrame(ByteBits(0x40) + ByteBits(0x3c) + ByteBits(0x01), tail);
  }

  lemma EndOfFrame(a: Bits, tail: Bits)
    ensures
      var head: Bits := [false, false, false, true, false, false];
      var flags: Bits := [true, true, true];
      var crop: Bits := [true, true, true, false, false, true, false, true];
      a + head + (flags + (crop + tail)) ==
        a + [false, false, false, true, false, false, true, true] + [true, true, true, true, false, false, true, false]
        + [true] + tail
  {
    var head: Bits := [false, false, false, true, false, false];
    var flags: Bits := [true, true, true];
    var crop: Bits := [true, true, true, false, false, true, false, true];
    var x: Bits := [false, false, false, true, false, false, true, true];
    var y: Bits := [true, true, true, true, false, false, true, false];
    Cat4(a, head, flags, crop, tail);
    Cat(a, head, flags + (crop + tail));
    Cat4(a, x, y, [true], tail);
    assert head + flags + crop == x + y + [true];
    Regroup(a, head, flags, crop);
    Regroup(a, x, y, [true]);
  }

  lemma Regroup(a: Bits, b: Bits, c: Bits, d: Bits)
    ensures a + b + c + d == a + (b + c + d)
  {
    Cat(b, c, d);
    Cat(a, b, c + d);
    Cat(a + b, c, d);
  }

  lemma FrameHead(r: Bits)
    ensures Ue(1, Flag(false, Ue(119, Ue(67, r)))) ==
      ByteBits(0x40) + ByteBits(0x3c) + ByteBits(0x01) + [false, false, false, true, false, false] + r
  {
    hide Ue, ByteBits;
    ByteIs(0x40, false, true, false, false, false, false, false, false);
    ByteIs(0x3c, false, false, true, true, true, true, false, false);
    ByteIs(0x01, false, false, false, false, false, false, false, true);
    var height: Bits := [false, false, false, false, false, false, true, false, false, false, true, false, false];
    var width: Bits := [false, false, false, false, false, false, true, true, true, true, false, false, false];
    SizeCodes(r);
    SizeCodes(height + r);
    SmallCodes([false] + (width + (height + r)));
    Cat4([false, true, false], [false], width, height, r);
    assert [false, true, false] + [false] + width + height ==
      ByteBits(0x40) + ByteBits(0x3c) + ByteBits(0x01) + [false, false, false, true, false, false];
  }

  lemma CropBits(tail: Bits)
    ensures WriteCrop(Crop(0, 0, 0, 4), tail) == [true, true, true, false, false, true, false, true] + tail
  {
    hide Ue;
    var four: Bits := [false, false, true, false, true];
    SmallCodes(tail);
    SmallCodes(four + tail);
    SmallCodes([true] + (four + tail));
    SmallCodes([true] + ([true] + (four + tail)));
    Cat4([true], [true], [true], four, tail);
    assert [true] + [true] + [true] + four == [true, true, true, false, false, true, false, true];
  }

  lemma FrontBits(tail: Bits)
    ensures WriteFront(SPS, tail) ==
      BytesBits([0x67, 0x64, 0x00, 0x2a]) + (ByteBits(0xac) + (ByteBits(0x2b) + (BytesBits([0x40, 0x3c, 0x01, 0x13])
        + ByteBits(0xf2) + [true] + tail)))
  {
    hide Ue, U, ByteBits, BytesBits, WriteHigh, WritePoc, WriteFrame;
    FrameBits(tail);
    PocBits(WriteFrame(SPS, tail));
    ChromaBits(Ue(4, WritePoc(Poc2, WriteFrame(SPS, tail))));
    HeaderBits(Ue(0, WriteHigh(SPS.high, Ue(4, WritePoc(Poc2, WriteFrame(SPS, tail))))));
  }

  // ---------- the VUI ----------

  /** The chroma sample locations are 1 and 1, which take six bits; the parser skips ten. */
  const TEN: Bits := [false, true, false, false, true, false, true, false, false, false]

  /** The VUI as the parser takes it, up to the first byte of the remainder. */
  function Vui(rest: Bits): Bits {
    Flag(true, WriteAspect(Some(Aspect(1, 0, 0)), Flag(false, WriteSignal(Some(VideoSignal(5, false, Some(Colour(6, 6, 6)))),
      Flag(true, TEN + Flag(false, Flag(false, Flag(false, rest))))))))
  }

  lemma VuiAccepted(rest: Bits)
    requires |rest| >= 2 && !rest[1]
    ensures ParseTail(Vui(rest), FrameOf(SPS), 1) == Size(1920, 1080)
  {
    hide WriteAspect, WriteSignal, SkipAspect, SkipVideoSignal, SkipVuiHead, ReadOptHrd, SkipRestriction, Skip, FrameSize;
    var hrds := Flag(false, Flag(false, rest));
    var loc := Flag(true, TEN + Flag(false, hrds));
    var signal := WriteSignal(Some(VideoSignal(5, false, Some(Colour(6, 6, 6)))), loc);
    var head := WriteAspect(Some(Aspect(1, 0, 0)), Flag(false, signal));
    AspectRead(Some(Aspect(1, 0, 0)), Flag(false, signal));
    OverscanRead(None, signal);
    SignalRead(Some(VideoSignal(5, false, Some(Colour(6, 6, 6)))), loc);
    HeadAccepted(head, Flag(false, signal), signal, loc, hrds);
    RestAccepted(hrds, rest);
    assert ReadVui(head) == Got(true, rest[2..]);
    FlagRead(true, head);
    StreamSize();
  }

  lemma StreamSize()
    ensures FrameSize(FrameOf(SPS), 1) == (1920, 1080)
  {
  }

  lemma HeadAccepted(b: Bits, overscan: Bits, signal: Bits, loc: Bits, hrds: Bits)
    requires SkipAspect(b) == Got((), overscan) && SkipOpt(overscan, 1) == Got((), signal)
    requires SkipVideoSignal(signal) == Got((), loc) && loc == Flag(true, TEN + Flag(false, hrds))
    ensures SkipVuiHead(b) == Got((), hrds)
  {
    assert loc[1..][10..] == Flag(false, hrds);
    assert SkipOpt(loc, 10) == Got((), Flag(false, hrds));
    assert SkipOpt(Flag(false, hrds), 65) == Got((), hrds) by {
      assert Flag(false, hrds)[1..] == hrds && hrds[0..] == hrds;
    }
  }

  lemma RestAccepted(hrds: Bits, rest: Bits)
    requires hrds == Flag(false, Flag(false, rest)) && |rest| >= 2 && !rest[1]
    ensures ReadOptHrd(hrds) == Got((false, true), Flag(false, rest))
    ensures ReadOptHrd(Flag(false, rest)) == Got((false, true), rest)
    ensures Skip(rest, 0) == Got((), rest) && Skip(rest, 1) == Got((), rest[1..])
    ensures SkipRestriction(rest[1..]) == Got((), rest[2..])
  {
    assert hrds[1..] == Flag(false, rest) && Flag(false, rest)[1..] == rest;
    assert rest[1..][1..] == rest[2..];
  }

  lemma Shift(x: Bits, s: Bits, y: Bits, z: Bits, r: Bits)
    requires x + s == y + z
    ensures x + (s + r) == y + (z + r)
  {
    Cat(x, s, r);
    Cat(y, z, r);
  }

  /** The chroma sample locations as skipped, with the flags around them. */
  function Locations(): Bits {
    [true, false, true, false, false, true, false, true, false, false, false, false, false, false]
  }

  lemma TwoAndEight(a: bool, b: bool, x7: bool, x6: bool, x5: bool, x4: bool, x3: bool, x2: bool, x1: bool, x0: bool)
    ensures [a, b] + [x7, x6, x5, x4, x3, x2, x1, x0] == [a, b, x7, x6, x5, x4, x3, x2, x1, x0]
    ensures [x7, x6, x5, x4, x3, x2, x1, x0] + [a, b] == [x7, x6, x5, x4, x3, x2, x1, x0, a, b]
  {
  }

  lemma ColourShifts()
    ensures [false, true] + ByteBits(6) == ByteBits(0x41) + [true, false]
    ensures [true, false] + ByteBits(6) == ByteBits(0x81) + [true, false]
    ensures [true, false] + Locations() == ByteBits(0xa9) + ByteBits(0x40)
  {
    ByteIs(6, false, false, false, false, false, true, true, false);
    ByteIs(0x41, false, true, false, false, false, false, false, true);
    ByteIs(0x81, true, false, false, false, false, false, false, true);
    hide ByteBits;
    TwoAndEight(false, true, false, false, false, false, false, true, true, false);
    TwoAndEight(true, false, false, false, false, false, false, true, true, false);
    TwoAndEight(true, false, false, true, false, false, false, false, false, true);
    TwoAndEight(true, false, true, false, false, false, false, false, false, true);
    LocationShift();
  }

  lemma LocationShift()
    ensures [true, false] + Locations() == ByteBits(0xa9) + ByteBits(0x40)
  {
    ByteIs(0xa9, true, false, true, false, true, false, false, true);
    ByteIs(0x40, false, true, false, false, false, false, false, false);
    hide ByteBits;
    EightAndEight(true, false, true, false, true, false, false, true, [false, true, false, false, false, false, false, false]);
  }

  lemma EightAndEight(x7: bool, x6: bool, x5: bool, x4: bool, x3: bool, x2: bool, x1: bool, x0: bool, y: Bits)
    requires |y| == 8
    ensures [x7, x6, x5, x4, x3, x2, x1, x0] + y == [x7, x6] + [x5, x4, x3, x2, x1, x0, y[0], y[1], y[2], y[3], y[4], y[5], y[6], y[7]]
  {
  }

  /** The colour description and what follows, not aligned to bytes. */
  lemma ColourBits(rest: Bits)
    ensures
      var s := ByteBits(6);
      [false, true] + (s + (s + (s + (Locations() + rest)))) ==
        ByteBits(0x41) + (ByteBits(0x81) + (ByteBits(0x81) + (ByteBits(0xa9) + (ByteBits(0x40) + rest))))
  {
    hide ByteBits, Locations;
    ColourShifts();
    var s, x, r := ByteBits(6), [true, false], Locations() + rest;
    Shift(x, Locations(), ByteBits(0xa9), ByteBits(0x40), rest);
    Shift(x, s, ByteBits(0x81), x, r);
    Shift(x, s, ByteBits(0x81), x, s + r);
    Shift([false, true], s, ByteBits(0x41), x, s + (s + r));
  }

  lemma HeadShift()
    ensures [true] + [true, true] + ByteBits(1) + ([false, true] + [true, false, true] + [false, true])
         == ByteBits(0xe0) + ByteBits(0x2d) + [false, true]
  {
    ByteIs(1, false, false, false, false, false, false, false, true);
    ByteIs(0xe0, true, true, true, false, false, false, false, false);
    ByteIs(0x2d, false, false, true, false, true, true, false, true);
    hide ByteBits;
    var all: Bits := [true, true, true, false, false, false, false, false, false, false, true, false, true, true, false, true,
                      false, true];
    HeadLeft(all);
    HeadRight(all);
  }

  lemma HeadLeft(all: Bits)
    requires all == [true, true, true, false, false, false, false, false, false, false, true, false, true, true, false, true,
                     false, true]
    ensures [true] + [true, true] + [false, false, false, false, false, false, false, true]
            + ([false, true] + [true, false, true] + [false, true]) == all
  {
    var x: Bits := [true, true, true];
    assert [true] + [true, true] == x;
    var y: Bits := [true, true, true, false, false, false, false, false, false, false, true];
    assert x + [false, false, false, false, false, false, false, true] == y;
    var z: Bits := [false, true, true, false, true, false, true];
    assert [false, true] + [true, false, true] + [false, true] == z;
    assert y + z == all;
  }

  lemma HeadRight(all: Bits)
    requires all == [true, true, true, false, false, false, false, false, false, false, true, false, true, true, false, true,
                     false, true]
    ensures [true, true, true, false, false, false, false, false] + [false, false, true, false, true, true, false, true]
            + [false, true] == all
  {
    TwoAndEight(false, true, false, false, true, false, true, true, false, true);
    var x, y: Bits := [true, true, true, false, false, false, false, false], [false, false, true, false, true, true, false, true];
    Cat(x, y, [false, true]);
    assert x + [false, false, true, false, true, true, false, true, false, true] == all;
  }

  lemma VuiHeadBits(r: Bits)
    ensures [true] + ([true, true] + (ByteBits(1) + ([false, true] + ([true, false, true] + ([false, true] + r))))) ==
      ByteBits(0xe0) + (ByteBits(0x2d) + ([false, true] + r))
  {
    HeadShift();
    SixParts([true], [true, true], ByteBits(1), [false, true], [true, false, true], [false, true], r);
    Cat(ByteBits(0xe0), ByteBits(0x2d), [false, true] + r);
    Cat(ByteBits(0xe0) + ByteBits(0x2d), [false, true], r);
  }

  lemma SixParts(a: Bits, b: Bits, c: Bits, d: Bits, e: Bits, f: Bits, r: Bits)
    ensures a + (b + (c + (d + (e + (f + r))))) == a + b + c + (d + e + f) + r
  {
    Cat(d, e, f + r);
    Cat(d + e, f, r);
    Cat4(a, b, c, d + e + f, r);
  }

  lemma VuiParts(rest: Bits)
    ensures
      var s := ByteBits(6);
      Vui(rest) == [true, true] + (ByteBits(1) + ([false, true] + ([true, false, true] + ([false, true]
        + (s + (s + (s + (Locations() + rest))))))))
  {
    hide ByteBits, Fixed, U, Locations;
    var s := ByteBits(6);
    var r1 := Flag(true, TEN + Flag(false, Flag(false, Flag(false, rest))));
    LocationBits(rest);
    UByte(6, r1);
    UByte(6, s + r1);
    UByte(6, s + (s + r1));
    var r2 := s + (s + (s + r1));
    TwoFlags(false, true, r2);
    Three([false, true] + r2);
    var r3 := [true, false, true] + ([false, true] + r2);
    TwoFlags(false, true, r3);
    UByte(1, [false, true] + r3);
    TwoFlags(true, true, ByteBits(1) + ([false, true] + r3));
  }

  lemma LocationBits(rest: Bits)
    ensures Flag(true, TEN + Flag(false, Flag(false, Flag(false, rest)))) == Locations() + rest
  {
    var o: Bits := [false, false, false];
    assert Flag(false, Flag(false, Flag(false, rest))) == o + rest;
    Cat([true], TEN, o + rest);
    Cat([true] + TEN, o, rest);
    assert [true] + TEN + o == Locations();
  }

  lemma TwoFlags(a: bool, b: bool, r: Bits)
    ensures Flag(a, Flag(b, r)) == [a, b] + r
  {
  }

  lemma Three(r: Bits)
    ensures U(3, 5, r) == [true, false, true] + r
  {
    assert Fixed(1, 1) == [] + [true];
    assert Fixed(2, 2) == [true] + [false];
  }

  lemma VuiBits(rest: Bits)
    ensures [true] + Vui(rest) ==
      ByteBits(0xe0) + (ByteBits(0x2d) + (ByteBits(0x41) + (ByteBits(0x81) + (ByteBits(0x81) + (ByteBits(0xa9)
        + (ByteBits(0x40) + rest))))))
  {
    hide ByteBits, Vui, Locations;
    var s := ByteBits(6);
    VuiParts(rest);
    VuiHeadBits(s + (s + (s + (Locations() + rest))));
    ColourBits(rest);
  }

  // ---------- the parse ----------

  lemma ByteFirst(b: byte, rest: seq<byte>)
    ensures BytesBits([b] + rest) == ByteBits(b) + BytesBits(rest)
  {
    assert ([b] + rest)[1..] == rest;
  }

  /** The stream from its twelfth byte on. */
  const FROM_VUI: seq<byte> := [0xe0] + ([0x2d] + ([0x41] + ([0x81] + ([0x81] + ([0xa9] + ([0x40] + REMAINDER))))))

  lemma FromVuiBits()
    ensures BytesBits(FROM_VUI) == [true] + Vui(BytesBits(REMAINDER))
  {
    hide BytesBits, ByteBits, Vui;
    ByteFirst(0x40, REMAINDER);
    ByteFirst(0xa9, [0x40] + REMAINDER);
    ByteFirst(0x81, [0xa9] + ([0x40] + REMAINDER));
    ByteFirst(0x81, [0x81] + ([0xa9] + ([0x40] + REMAINDER)));
    ByteFirst(0x41, [0x81] + ([0x81] + ([0xa9] + ([0x40] + REMAINDER))));
    ByteFirst(0x2d, [0x41] + ([0x81] + ([0x81] + ([0xa9] + ([0x40] + REMAINDER)))));
    ByteFirst(0xe0, [0x2d] + ([0x41] + ([0x81] + ([0x81] + ([0xa9] + ([0x40] + REMAINDER))))));
    VuiBits(BytesBits(REMAINDER));
  }

  lemma StreamBits()
    ensures BytesBits(STREAM) == WriteFront(SPS, Vui(BytesBits(REMAINDER)))
  {
    hide BytesBits, ByteBits, Vui, WriteFront;
    var tail := Vui(BytesBits(REMAINDER));
    FromVuiBits();
    FrontBits(tail);
    var frame: seq<byte> := [0x40, 0x3c, 0x01, 0x13];
    var head: seq<byte> := [0x67, 0x64, 0x00, 0x2a];
    ByteFirst(0xf2, FROM_VUI);
    BytesBitsConcat(frame, [0xf2] + FROM_VUI);
    ByteFirst(0x2b, frame + ([0xf2] + FROM_VUI));
    ByteFirst(0xac, [0x2b] + (frame + ([0xf2] + FROM_VUI)));
    BytesBitsConcat(head, [0xac] + ([0x2b] + (frame + ([0xf2] + FROM_VUI))));
    assert STREAM == head + ([0xac] + ([0x2b] + (frame + ([0xf2] + FROM_VUI))));
    Cat(BytesBits(frame), ByteBits(0xf2), [true] + tail);
    Cat(BytesBits(frame) + ByteBits(0xf2), [true], tail);
  }

  /** sps_parse_dimension_h264 finds 1920 by 1080 in this stream, although it misreads the chroma sample locations. */
  lemma StreamParsed()
    ensures ParseBytes(STREAM) == Size(1920, 1080)
  {
    StreamPlain();
    StreamBits();
    hide Payload, Vui, ParseTail, BytesBits, Parse, WriteFront, FrameOf;
    FrontRead(SPS, Vui(BytesBits(REMAINDER)));
    RemainderStarts();
    VuiAccepted(BytesBits(REMAINDER));
  }

  lemma StreamPlain()
    ensures Payload(STREAM, 0, 0) == STREAM
  {
    hide Payload;
    NothingDropped(STREAM, 0, 0);
  }

  lemma RemainderStarts()
    ensures |BytesBits(REMAINDER)| >= 2 && !BytesBits(REMAINDER)[1]
  {
    ByteIs(0, false, false, false, false, false, false, false, false);
    hide ByteBits;
    assert BytesBits(REMAINDER) == ByteBits(0) + BytesBits(REMAINDER[1..]);
  }
}
