/** The bit reader of sps_parser.c and the parsing functions on top of it, as they run: every read advances
    `offset` and `consecutiveZeroes` in place.  Each method is proved to deliver what the
    corresponding reader in SpsSyntax, SpsH264 and SpsHevc makes of the payload's bits. */
module SpsReader {
  import opened SpsBits
  import opened SpsSyntax
  import opened SpsH264
  import opened SpsH264Proof
  import opened SpsHevc

  /** The payload bits still to be read when bit j of byte k is next and the reader has counted `zeroes`. */
  function RestIn(data: seq<byte>, k: nat, j: nat, zeroes: nat): (b: Bits)
    requires j < 8
  {
    if j == 0 then BytesBits(Payload(data, k, zeroes))
    else if k < |data| then ByteBits(data[k])[j..] + BytesBits(Payload(data, k + 1, zeroes))
    else []
  }

  /** The same by bit position, as in the C code. */
  function RestAt(data: seq<byte>, pos: nat, zeroes: nat): (b: Bits) {
    RestIn(data, pos / 8, pos % 8, zeroes)
  }

  lemma {:induction false} PayloadLength(data: seq<byte>, k: nat, zeroes: nat)
    requires k <= |data|
    ensures |Payload(data, k, zeroes)| <= |data| - k
    decreases |data| - k
  {
    if k < |data| {
      PayloadLength(data, k + 1, zeroes + 1);
      PayloadLength(data, k + 1, 0);
    }
  }

  lemma RestLength(data: seq<byte>, k: nat, j: nat, zeroes: nat)
    requires j < 8 && 8 * k + j <= 8 * |data|
    ensures |RestIn(data, k, j, zeroes)| <= 8 * |data| - (8 * k + j)
  {
    if j == 0 {
      PayloadLength(data, k, zeroes);
    } else {
      PayloadLength(data, k + 1, zeroes);
    }
  }

  lemma DropConcat(x: Bits, i: nat, y: Bits)
    requires i < |x|
    ensures x[i..] + y == [x[i]] + (x[i + 1..] + y)
    ensures x[|x|..] + y == y
  {
  }

  /** Bit j of byte k, and what follows it. */
  lemma NextInByte(data: seq<byte>, k: nat, j: nat, zeroes: nat)
    requires k < |data| && j < 8
    ensures ByteBits(data[k])[j..] + BytesBits(Payload(data, k + 1, zeroes))
         == [ByteBits(data[k])[j]] + (if j < 7 then RestIn(data, k, j + 1, zeroes) else RestIn(data, k + 1, 0, zeroes))
  {
    DropConcat(ByteBits(data[k]), j, BytesBits(Payload(data, k + 1, zeroes)));
  }

  /** At the start of a byte that is delivered and leaves the counter at `after`. */
  lemma NextByte(data: seq<byte>, k: nat, zeroes: nat, after: nat)
    requires k < |data| && Payload(data, k, zeroes) == [data[k]] + Payload(data, k + 1, after)
    ensures RestIn(data, k, 0, zeroes) == [ByteBits(data[k])[0]] + RestIn(data, k, 1, after)
  {
    BytesBitsCons(data[k], Payload(data, k + 1, after));
    NextInByte(data, k, 0, after);
  }

  lemma BytesBitsCons(b: byte, bs: seq<byte>)
    ensures BytesBits([b] + bs) == ByteBits(b)[0..] + BytesBits(bs)
  {
    assert ([b] + bs)[1..] == bs;
  }

  /** An emulation-prevention byte is followed by the byte that it protects. */
  lemma NextEscaped(data: seq<byte>, k: nat)
    requires k < |data| && data[k] == 3 && RestIn(data, k, 0, 2) != []
    ensures k + 1 < |data|
    ensures var after := if data[k + 1] == 0 then 1 else 0;
      RestIn(data, k, 0, 2) == [ByteBits(data[k + 1])[0]] + RestIn(data, k + 1, 1, after)
  {
    assert Payload(data, k, 2) == Payload(data, k + 1, 0);
    if k + 1 < |data| {
      NextByte(data, k + 1, 0, if data[k + 1] == 0 then 1 else 0);
    }
  }

  lemma BytePosition(pos: nat, k: nat, j: nat)
    requires pos == 8 * k + j && j < 8
    ensures pos / 8 == k && pos % 8 == j
  {
  }

  /** Shift right and mask, as the reader does, picks bit i counted from the top. */
  method PickBit(b: byte, i: nat) returns (bit: bool)
    requires i < 8
    ensures bit == ByteBits(b)[i]
  {
    ByteBitsAt(b, i);
    bit := BitOfByte(b, i);
  }

  lemma ValSnoc(b: Bits, i: nat)
    requires i < |b|
    ensures Val(b[..i + 1]) == 2 * Val(b[..i]) + Bit(b[i])
  {
    assert b[..i + 1][..i] == b[..i];
  }

  class BitStream {
    const data: seq<byte>
    var offset: nat
    var consecutiveZeroes: nat

    /** Bit offsets fit 32 bits. */
    ghost predicate Valid()
      reads this
    {
      offset <= 8 * |data| < M32
    }

    ghost function Rest(): Bits
      reads this
    {
      RestAt(data, offset, consecutiveZeroes)
    }

    constructor (data: seq<byte>)
      requires 8 * |data| < M32
      ensures Valid() && this.data == data
      ensures Rest() == BytesBits(Payload(data, 0, 0))
    {
      this.data := data;
      offset := 0;
      consecutiveZeroes := 0;
    }

    /** What bitstream_read_bits does at a byte boundary: count zeroes, and step over an
        emulation-prevention byte. */
    method EnterByte(i: nat, ghost k: nat)
      requires offset + i == 8 * k < 8 * |data| && RestIn(data, k, 0, consecutiveZeroes) != []
      modifies this
      ensures offset == old(offset) || offset == old(offset) + 8
      ensures var k' := if offset == old(offset) then k else k + 1;
        && k' < |data|
        && RestIn(data, k, 0, old(consecutiveZeroes)) == [ByteBits(data[k'])[0]] + RestIn(data, k', 1, consecutiveZeroes)
    {
      var b := data[(offset + i) / 8];
      if b == 0 {
        NextByte(data, k, consecutiveZeroes, consecutiveZeroes + 1);
        consecutiveZeroes := consecutiveZeroes + 1;
      } else if b == 3 && consecutiveZeroes == 2 {
        NextEscaped(data, k);
        offset := offset + 8;
        consecutiveZeroes := if data[(offset + i) / 8] == 0 then 1 else 0;
      } else {
        NextByte(data, k, consecutiveZeroes, 0);
        consecutiveZeroes := 0;
      }
    }

    /** One round of the loop of bitstream_read_bits, at bit j of byte k. */
    method NextBit(i: nat, ghost k: nat, ghost j: nat) returns (bit: bool, ghost k': nat)
      requires offset + i == 8 * k + j <= 8 * |data| && j < 8 && RestIn(data, k, j, consecutiveZeroes) != []
      modifies this
      ensures offset + i == 8 * k' + j && k' < |data|
      ensures old(RestIn(data, k, j, consecutiveZeroes))
           == [bit] + if j < 7 then RestIn(data, k', j + 1, consecutiveZeroes) else RestIn(data, k' + 1, 0, consecutiveZeroes)
    {
      RestLength(data, k, j, consecutiveZeroes);
      BytePosition(offset + i, k, j);
      ghost var before := offset;
      if (offset + i) % 8 == 0 {
        EnterByte(i, k);
      } else {
        NextInByte(data, k, j, consecutiveZeroes);
      }
      k' := if offset == before then k else k + 1;
      var curOffset := offset + i;
      BytePosition(curOffset, k', j);
      bit := PickBit(data[curOffset / 8], curOffset % 8);
    }

    /** bitstream_read_bits.  The bit or-ed into the result lies below all bits set so far. */
    method ReadBits(size: nat) returns (ok: bool, value: nat)
      requires Valid() && (size <= 32 ==> size <= |Rest()|)
      modifies this
      ensures Valid() && ok == (size <= 32)
      ensures !ok ==> Rest() == old(Rest())
      ensures ok ==> value == Val(old(Rest())[..size]) < M32 && Rest() == old(Rest())[size..]
    {
      hide Pow2, RestIn;
      if size > 32 {
        return false, 0;
      }
      ghost var rest := Rest();
      ghost var k: nat, j: nat := offset / 8, offset % 8;
      var result := 0;
      var i := 0;
      while i < size
        invariant 0 <= i <= size && offset + i == 8 * k + j <= 8 * |data| && j < 8
        invariant RestIn(data, k, j, consecutiveZeroes) == rest[i..]
        invariant result == Shifted(rest, i, size)
      {
        var bit;
        bit, k := NextBit(i, k, j);
        if j < 7 {
          j := j + 1;
        } else {
          k, j := k + 1, 0;
        }
        ShiftedNext(rest, i, size, bit, RestIn(data, k, j, consecutiveZeroes));
        result := result + Bit(bit) * Pow2(size - i - 1);
        i := i + 1;
      }
      offset := offset + size;
      BytePosition(offset, k, j);
      ShiftedAll(rest, size);
      return true, result;
    }

    static lemma ShiftedAll(rest: Bits, size: nat)
      requires size <= |rest| && size <= 32
      ensures Shifted(rest, size, size) == Val(rest[..size]) < M32
    {
      Pow2Monotone(size, 32);
      Pow2Constants();
    }

    /** The first i bits, at the top of a number of `size` bits. */
    static function Shifted(rest: Bits, i: nat, size: nat): nat
      requires i <= |rest| && i <= size
    {
      Val(rest[..i]) * Pow2(size - i)
    }

    static lemma ShiftedNext(rest: Bits, i: nat, size: nat, bit: bool, tail: Bits)
      requires i < size <= |rest| && rest[i..] == [bit] + tail
      ensures Shifted(rest, i + 1, size) == Shifted(rest, i, size) + Bit(bit) * Pow2(size - i - 1)
      ensures tail == rest[i + 1..]
    {
      assert rest[i] == rest[i..][0] == bit;
      assert rest[i + 1..] == rest[i..][1..];
      ValSnoc(rest, i);
      Accumulate(Val(rest[..i]), size - i, bit);
    }

    static lemma Accumulate(v: nat, n: nat, bit: bool)
      requires n > 0
      ensures v * Pow2(n) + Bit(bit) * Pow2(n - 1) == (2 * v + Bit(bit)) * Pow2(n - 1)
    {
    }

    /** bitstream_skip_bits */
    method SkipBits(size: nat)
      requires Valid() && Skip(Rest(), size).Got?
      modifies this
      ensures Valid() && Got((), Rest()) == Skip(old(Rest()), size)
    {
      ghost var rest := Rest();
      var i := 0;
      while i < size
        invariant 0 <= i && Valid() && Rest() == rest[if i < size then i else size..]
      {
        var n := if size - i < 16 then size - i else 16;
        var _, _ := ReadBits(n);
        assert rest[i..][n..] == rest[i + n..];
        i := i + 16;
      }
    }

    method Read8() returns (value: nat)
      requires Valid() && ReadN(Rest(), 8).Got?
      modifies this
      ensures Valid() && Got(value, Rest()) == ReadN(old(Rest()), 8)
    {
      var _, v := ReadBits(8);
      value := v;
    }

    method ReadFlag() returns (value: bool)
      requires Valid() && Read1(Rest()).Got?
      modifies this
      ensures Valid() && Got(value, Rest()) == Read1(old(Rest()))
    {
      ghost var rest := Rest();
      var _, v := ReadBits(1);
      assert rest[..1] == [rest[0]];
      assert Val([rest[0]]) == Bit(rest[0]) by {
        assert [rest[0]][..0] == [];
      }
      value := v != 0;
    }

    /** The loop of bitstream_read_ueg: count zero bits up to the first one bit, and pass it. */
    method CountZeroes() returns (bitcount: nat)
      requires Valid() && LeadingZeroes(Rest()) < |Rest()|
      modifies this
      ensures Valid() && bitcount == LeadingZeroes(old(Rest())) && Rest() == old(Rest())[bitcount + 1..]
    {
      ghost var rest := Rest();
      ghost var z := LeadingZeroes(rest);
      bitcount := 0;
      var tmp := ReadFlag();
      while !tmp
        invariant bitcount <= z && tmp == (bitcount == z)
        invariant Valid() && Rest() == rest[bitcount + 1..]
        decreases z - bitcount
      {
        bitcount := bitcount + 1;
        tmp := ReadFlag();
      }
    }

    /** bitstream_read_ueg */
    method ReadUeg() returns (ok: bool, value: nat)
      requires Valid() && ReadUe(Rest()).Got?
      modifies this
      ensures Valid() && Got(if ok then Some(value) else None, Rest()) == ReadUe(old(Rest()))
    {
      hide Val, Pow2, LeadingZeroes;
      var bitcount := CountZeroes();
      if bitcount == 0 {
        return true, 0;
      }
      ghost var suffix := Rest();
      var okBits, bits := ReadBits(bitcount);
      if !okBits {
        return false, 0;
      }
      assert ReadUe(old(Rest())) == UegSuffix(suffix, bitcount);
      hide ReadUe;
      return true, W32(Pow2(bitcount) - 1 + bits);
    }

    /** bitstream_read_eg */
    method ReadEg() returns (ok: bool, value: int)
      requires Valid() && ReadSe(Rest()).Got?
      modifies this
      ensures Valid() && Got(if ok then Some(value) else None, Rest()) == ReadSe(old(Rest()))
    {
      var okUeg, tmp := ReadUeg();
      if !okUeg {
        return false, 0;
      }
      if tmp % 2 == 1 {
        return true, Half(I32(W32(tmp + 1)));
      } else {
        var half: int := tmp / 2;
        return true, I32(W32(-half));
      }
    }

    /** bitstream_skip_scaling_list; the caller ignores its result. */
    method ReadScalingList(count: nat) returns (ok: bool)
      requires Valid() && SkipScalingList(Rest(), 0, count, 8, 8).Got?
      modifies this
      ensures Valid() && Got((), Rest()) == SkipScalingList(old(Rest()), 0, count, 8, 8)
    {
      var lastScale, nextScale := 8, 8;
      var j := 0;
      while j < count
        invariant 0 <= j <= count && Valid()
        invariant SkipScalingList(Rest(), j, count, lastScale, nextScale) == SkipScalingList(old(Rest()), 0, count, 8, 8)
      {
        if nextScale != 0 {
          var okEg, deltaScale := ReadEg();
          if !okEg {
            return false;
          }
          nextScale := NextScale(lastScale, deltaScale);
        }
        lastScale := if nextScale == 0 then lastScale else nextScale;
        j := j + 1;
      }
      return true;
    }

    /** A bitstream_read_ueg whose result is ignored. */
    method IgnoreUeg()
      requires Valid() && SkipUe(Rest()).Got?
      modifies this
      ensures Valid() && Got((), Rest()) == SkipUe(old(Rest()))
    {
      var _, _ := ReadUeg();
    }

    method IgnoreEg()
      requires Valid() && SkipSe(Rest()).Got?
      modifies this
      ensures Valid() && Got((), Rest()) == SkipSe(old(Rest()))
    {
      var _, _ := ReadEg();
    }

    /** A bitstream_read_ueg into a variable that holds zero before. */
    method UegOrZero() returns (value: nat)
      requires Valid() && ReadUeOrZero(Rest()).Got?
      modifies this
      ensures Valid() && Got(value, Rest()) == ReadUeOrZero(old(Rest()))
    {
      var ok, v := ReadUeg();
      return if ok then v else 0;
    }

    /** A bitstream_read_ueg whose success is taken for granted. */
    method UegSet() returns (value: nat)
      requires Valid() && ReadUeSet(Rest()).Got?
      modifies this
      ensures Valid() && Got(value, Rest()) == ReadUeSet(old(Rest()))
    {
      var _, v := ReadUeg();
      value := v;
    }
  }
}
