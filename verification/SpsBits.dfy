/** Bits, bytes and emulation prevention (media/sps-parser/sps_parser.c).

    A parameter set is a sequence of bits.  It is packed into bytes, and an
    emulation-prevention byte 0x03 is put wherever two zero bytes would be
    followed by a byte below four (section 7.3.1 of ITU-T H.264 and section
    7.3.1.1 of ITU-T H.265). */
module SpsBits {

  type byte = b: int | 0 <= b < 256
  type Bits = seq<bool>

  function Pow2(n: nat): (p: nat)
    ensures p >= 1
  {
    if n == 0 then 1 else 2 * Pow2(n - 1)
  }

  lemma Pow2Add(m: nat, n: nat)
    ensures Pow2(m + n) == Pow2(m) * Pow2(n)
  {
    if m > 0 {
      Pow2Add(m - 1, n);
      assert Pow2(m + n) == 2 * Pow2(m - 1 + n);
    }
  }

  lemma Pow2Monotone(m: nat, n: nat)
    requires m <= n
    ensures Pow2(m) <= Pow2(n)
  {
    if m < n {
      Pow2Monotone(m, n - 1);
    }
  }

  lemma Pow2Constants()
    ensures Pow2(8) == 0x100 && Pow2(16) == 0x1_0000 && Pow2(31) == 0x8000_0000 && Pow2(32) == 0x1_0000_0000
  {
    assert Pow2(4) == 16;
    Pow2Add(4, 4);
    Pow2Add(8, 8);
    Pow2Add(16, 16);
    assert Pow2(32) == 2 * Pow2(31);
  }

  function Bit(b: bool): (n: nat) { if b then 1 else 0 }

  /** The number written by bits, most significant first. */
  function Val(bits: Bits): (n: nat)
    ensures n < Pow2(|bits|)
  {
    if bits == [] then 0 else 2 * Val(bits[..|bits| - 1]) + Bit(bits[|bits| - 1])
  }

  /** n bits of v, most significant first. */
  function Fixed(n: nat, v: nat): (bits: Bits)
    ensures |bits| == n
  {
    if n == 0 then [] else Fixed(n - 1, v / 2) + [v % 2 == 1]
  }

  lemma {:induction false} ValFixed(n: nat, v: nat)
    requires v < Pow2(n)
    ensures Val(Fixed(n, v)) == v
  {
    if n > 0 {
      ValFixed(n - 1, v / 2);
      assert Fixed(n, v)[..n - 1] == Fixed(n - 1, v / 2);
    }
  }

  lemma {:induction false} FixedVal(bits: Bits)
    ensures Fixed(|bits|, Val(bits)) == bits
  {
    if bits != [] {
      FixedVal(bits[..|bits| - 1]);
      assert Val(bits) / 2 == Val(bits[..|bits| - 1]);
    }
  }

  /** Bit i of a byte counted from the top, as the reader picks it: shift right and mask. */
  function BitOfByte(b: byte, i: nat): (bit: bool)
    requires i < 8
  {
    b / Pow2(7 - i) % 2 == 1
  }

  function ByteBits(b: byte): (bits: Bits)
    ensures |bits| == 8
  {
    Fixed(8, b)
  }

  lemma {:induction false} FixedAt(n: nat, v: nat, i: nat)
    requires i < n
    ensures Fixed(n, v)[i] == (v / Pow2(n - 1 - i) % 2 == 1)
  {
    if i < n - 1 {
      FixedAt(n - 1, v / 2, i);
      DivDiv(v, n - 2 - i);
    }
  }

  lemma DivDiv(v: nat, k: nat)
    ensures v / 2 / Pow2(k) == v / Pow2(k + 1)
  {
    var p := Pow2(k);
    var q := v / (2 * p);
    var r := v % (2 * p);
    assert v == 2 * p * q + r;
    assert v / 2 == p * q + r / 2 by {
      assert 2 * p * q == 2 * (p * q);
    }
    assert 0 <= r / 2 < p;
    DivUnique(v / 2, p, q, r / 2);
  }

  lemma DivUnique(x: nat, p: nat, q: nat, r: nat)
    requires p > 0 && r < p && x == p * q + r
    ensures x / p == q
  {
    var q' := x / p;
    if q' > q {
      MulMonotone(p, q + 1, q');
    } else if q' < q {
      MulMonotone(p, q' + 1, q);
    }
  }

  lemma MulMonotone(p: nat, a: nat, b: nat)
    requires a <= b
    ensures p * a <= p * b
  {
    assert p * b == p * a + p * (b - a);
  }

  lemma ByteBitsAt(b: byte, i: nat)
    requires i < 8
    ensures ByteBits(b)[i] == BitOfByte(b, i)
  {
    FixedAt(8, b, i);
  }

  function BytesBits(bs: seq<byte>): (bits: Bits)
    ensures |bits| == 8 * |bs|
  {
    if bs == [] then [] else ByteBits(bs[0]) + BytesBits(bs[1..])
  }

  function ValByte(bits: Bits): (b: byte)
    requires |bits| == 8
  {
    Pow2Constants();
    Val(bits)
  }

  /** Pack bits into bytes; the number of bits is a multiple of eight. */
  function Pack(bits: Bits): (bs: seq<byte>)
    requires |bits| % 8 == 0
    ensures |bs| == |bits| / 8
  {
    if bits == [] then [] else [ValByte(bits[..8])] + Pack(bits[8..])
  }

  lemma {:induction false} UnpackPack(bits: Bits)
    requires |bits| % 8 == 0
    ensures BytesBits(Pack(bits)) == bits
    decreases |bits|
  {
    if bits != [] {
      FixedVal(bits[..8]);
      UnpackPack(bits[8..]);
      assert Pack(bits)[1..] == Pack(bits[8..]);
      assert bits == bits[..8] + bits[8..];
    }
  }

  // ---------- emulation prevention ----------

  /** The bytes the reader of sps_parser.c delivers from index k on, when `zeroes` zero bytes came just
      before: it drops a byte 0x03 that follows exactly two of them. */
  function Payload(data: seq<byte>, k: nat, zeroes: nat): (p: seq<byte>)
    decreases |data| - k
  {
    if k >= |data| then []
    else if data[k] == 0 then [0] + Payload(data, k + 1, zeroes + 1)
    else if data[k] == 3 && zeroes == 2 then Payload(data, k + 1, 0)
    else [data[k]] + Payload(data, k + 1, 0)
  }

  /** The NAL unit syntax of the standards: drop the third byte of every 0x000003. */
  function StdPayload(data: seq<byte>, k: nat): (p: seq<byte>)
    decreases |data| - k
  {
    if k >= |data| then []
    else if k + 2 < |data| && data[k] == 0 && data[k + 1] == 0 && data[k + 2] == 3 then [0, 0] + StdPayload(data, k + 3)
    else [data[k]] + StdPayload(data, k + 1)
  }

  /** StdPayload with a counter like the reader's, but dropping 0x03 behind two zero bytes or more. */
  function CountedPayload(data: seq<byte>, k: nat, zeroes: nat): (p: seq<byte>)
    decreases |data| - k
  {
    if k >= |data| then []
    else if data[k] == 0 then [0] + CountedPayload(data, k + 1, if zeroes < 2 then zeroes + 1 else 2)
    else if data[k] == 3 && zeroes == 2 then CountedPayload(data, k + 1, 0)
    else [data[k]] + CountedPayload(data, k + 1, 0)
  }

  /** c zero bytes, at most two, in front of s. */
  function WithZeroes(c: nat, s: seq<byte>): (z: seq<byte>) {
    if c == 0 then s else if c == 1 then [0] + s else [0, 0] + s
  }

  lemma WithZeroesMore(s: seq<byte>)
    ensures WithZeroes(0, [0] + s) == WithZeroes(1, s)
    ensures WithZeroes(1, [0] + s) == WithZeroes(2, s)
    ensures WithZeroes(2, [0] + s) == [0] + WithZeroes(2, s)
    ensures [0] + WithZeroes(1, s) == WithZeroes(2, s)
  {
  }

  /** The one-step rule of the standard's syntax, applied to up to two zeroes that no 0x03 follows. */
  lemma StdZeroes(data: seq<byte>, k: nat, c: nat)
    requires c <= 2 && c <= k <= |data|
    requires forall i :: k - c <= i < k ==> data[i] == 0
    requires k < |data| ==> data[k] != 0 && !(c == 2 && data[k] == 3)
    ensures StdPayload(data, k - c) == WithZeroes(c, StdPayload(data, k))
  {
    if c >= 1 {
      var s1 := StdPayload(data, k - 1);
      assert s1 == [0] + StdPayload(data, k);
      if c == 2 {
        assert StdPayload(data, k - 2) == [0] + s1;
        WithZeroesMore(StdPayload(data, k));
      }
    }
  }

  lemma CountedZero(data: seq<byte>, k: nat, c: nat)
    requires c <= 2 && c <= k < |data| && data[k] == 0
    requires forall i :: k - c <= i < k ==> data[i] == 0
    requires var c' := if c < 2 then c + 1 else 2;
      WithZeroes(c', CountedPayload(data, k + 1, c')) == StdPayload(data, k + 1 - c')
    ensures WithZeroes(c, CountedPayload(data, k, c)) == StdPayload(data, k - c)
  {
    var c' := if c < 2 then c + 1 else 2;
    var s := CountedPayload(data, k + 1, c');
    assert CountedPayload(data, k, c) == [0] + s;
    WithZeroesMore(s);
    if c == 2 {
      assert data[k - 2] == 0;
      assert StdPayload(data, k - 2) == [0] + StdPayload(data, k - 1);
    }
  }

  lemma CountedOther(data: seq<byte>, k: nat, c: nat)
    requires c <= 2 && c <= k < |data| && data[k] != 0
    requires forall i :: k - c <= i < k ==> data[i] == 0
    requires CountedPayload(data, k + 1, 0) == StdPayload(data, k + 1)
    ensures WithZeroes(c, CountedPayload(data, k, c)) == StdPayload(data, k - c)
  {
    if c == 2 && data[k] == 3 {
      assert StdPayload(data, k - 2) == [0, 0] + StdPayload(data, k + 1);
    } else {
      assert StdPayload(data, k) == [data[k]] + StdPayload(data, k + 1);
      StdZeroes(data, k, c);
    }
  }

  lemma {:induction false} CountedIsStd(data: seq<byte>, k: nat, c: nat)
    requires c <= 2 && c <= k <= |data|
    requires forall i :: k - c <= i < k ==> data[i] == 0
    ensures WithZeroes(c, CountedPayload(data, k, c)) == StdPayload(data, k - c)
    decreases |data| - k
  {
    if k == |data| {
      StdZeroes(data, k, c);
    } else if data[k] == 0 {
      hide CountedPayload, StdPayload, WithZeroes;
      CountedIsStd(data, k + 1, if c < 2 then c + 1 else 2);
      CountedZero(data, k, c);
    } else {
      hide StdPayload;
      CountedIsStd(data, k + 1, 0);
      CountedOther(data, k, c);
    }
  }

  /** Some 0x03 at or behind k follows three zero bytes or more. */
  predicate LongRun(data: seq<byte>, k: nat, zeroes: nat)
    decreases |data| - k
  {
    k < |data| &&
    if data[k] == 0 then LongRun(data, k + 1, zeroes + 1)
    else (data[k] == 3 && zeroes >= 3) || LongRun(data, k + 1, 0)
  }

  lemma {:induction false} PayloadVersusCounted(data: seq<byte>, k: nat, zeroes: nat)
    ensures var c := if zeroes < 2 then zeroes else 2;
      if LongRun(data, k, zeroes) then |Payload(data, k, zeroes)| > |CountedPayload(data, k, c)|
      else Payload(data, k, zeroes) == CountedPayload(data, k, c)
    decreases |data| - k
  {
    if k < |data| {
      if data[k] == 0 {
        PayloadVersusCounted(data, k + 1, zeroes + 1);
      } else {
        PayloadVersusCounted(data, k + 1, 0);
      }
    }
  }

  predicate ZeroZeroZeroThree(data: seq<byte>, i: int) {
    0 <= i && i + 3 < |data| && data[i] == 0 && data[i + 1] == 0 && data[i + 2] == 0 && data[i + 3] == 3
  }

  lemma {:induction false} LongRunMeans(data: seq<byte>, k: nat, zeroes: nat)
    requires zeroes <= k <= |data| && forall i :: k - zeroes <= i < k ==> data[i] == 0
    requires k > zeroes ==> data[k - zeroes - 1] != 0
    ensures LongRun(data, k, zeroes) <==> exists i :: k <= i + 3 && ZeroZeroZeroThree(data, i)
    decreases |data| - k
  {
    if k < |data| {
      if data[k] == 0 {
        LongRunMeans(data, k + 1, zeroes + 1);
      } else {
        LongRunMeans(data, k + 1, 0);
        RunOfThree(data, k, zeroes);
        assert forall i :: k <= i + 3 && ZeroZeroZeroThree(data, i) ==> k + 1 <= i + 3 || i == k - 3;
      }
    }
  }

  lemma RunOfThree(data: seq<byte>, k: nat, zeroes: nat)
    requires zeroes <= k < |data| && forall i :: k - zeroes <= i < k ==> data[i] == 0
    requires k > zeroes ==> data[k - zeroes - 1] != 0
    ensures data[k] == 3 && zeroes >= 3 <==> ZeroZeroZeroThree(data, k - 3)
  {
  }

  /** The reader delivers what the standards prescribe exactly on data without the four bytes 00 00 00 03.
      (Conforming streams never contain three zero bytes in a row.) */
  lemma ReaderMeetsStandard(data: seq<byte>)
    ensures Payload(data, 0, 0) == StdPayload(data, 0) <==> forall i :: !ZeroZeroZeroThree(data, i)
  {
    PayloadVersusCounted(data, 0, 0);
    CountedIsStd(data, 0, 0);
    LongRunMeans(data, 0, 0);
  }

  /** The encoder: c counts the zero bytes just written, up to two. */
  function Escape(p: seq<byte>, c: nat): (data: seq<byte>)
    requires c <= 2
  {
    if p == [] then []
    else if c == 2 && p[0] <= 3 then [3, p[0]] + Escape(p[1..], if p[0] == 0 then 1 else 0)
    else [p[0]] + Escape(p[1..], if p[0] == 0 then c + 1 else 0)
  }

  /** Reading undoes escaping, whatever came before. */
  lemma {:induction false} ReadEscaped(pre: seq<byte>, p: seq<byte>, c: nat)
    requires c <= 2
    ensures Payload(pre + Escape(p, c), |pre|, c) == p
    decreases |p|
  {
    var data := pre + Escape(p, c);
    if p != [] {
      var c' := if p[0] == 0 then (if c == 2 then 1 else c + 1) else 0;
      if c == 2 && p[0] <= 3 {
        ReadEscaped(pre + [3, p[0]], p[1..], c');
        assert data == pre + [3, p[0]] + Escape(p[1..], c');
        assert data[|pre|] == 3 && data[|pre| + 1] == p[0];
        assert Payload(data, |pre| + 1, 0) == [p[0]] + Payload(data, |pre| + 2, c');
      } else {
        ReadEscaped(pre + [p[0]], p[1..], c');
        assert data == pre + [p[0]] + Escape(p[1..], c');
        assert data[|pre|] == p[0];
      }
      assert [p[0]] + p[1..] == p;
    }
  }
}
