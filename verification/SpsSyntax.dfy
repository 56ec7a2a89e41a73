/** Reading and writing the elements of a parameter set (media/sps-parser/sps_parser.c).

    Readers take the bits still to be read and mirror the C functions, 32-bit
    arithmetic included.  Writers follow the descriptors u(n), ue(v) and se(v) of
    the standards; each puts its element in front of the bits that follow. */
module SpsSyntax {
  import opened SpsBits

  datatype Option<T> = None | Some(value: T)

  /** Undef: the C code would read past the data or use a variable it never set. */
  datatype R<T> = Undef | Got(value: T, rest: Bits) {
    predicate IsFailure() { Undef? }

    function PropagateFailure<U>(): R<U>
      requires Undef?
    {
      Undef
    }

    function Extract(): (T, Bits)
      requires Got?
    {
      (value, rest)
    }
  }

  const M32 := 0x1_0000_0000

  function W32(x: int): (r: nat)
    ensures r < M32
  {
    if 0 <= x < M32 then x else x % M32
  }

  /** Reinterpret 32 bits as a signed number. */
  function I32(x: nat): (r: int)
    requires x < M32
  {
    if x < 0x8000_0000 then x else x - M32
  }

  /** C division by two, truncating toward zero. */
  function Half(x: int): (r: int) {
    if x >= 0 then x / 2 else -(-x / 2)
  }

  // ---------- readers ----------

  function ReadN(b: Bits, n: nat): R<nat> {
    if |b| < n then Undef else Got(Val(b[..n]), b[n..])
  }

  function Skip(b: Bits, n: nat): R<()> {
    if |b| < n then Undef else Got((), b[n..])
  }

  function Read1(b: Bits): R<bool> {
    if b == [] then Undef else Got(b[0], b[1..])
  }

  /** How many bits are zero before the first one bit. */
  function LeadingZeroes(b: Bits): (z: nat)
    ensures z <= |b|
    ensures forall i :: 0 <= i < z ==> !b[i]
    ensures z < |b| ==> b[z]
  {
    if b == [] || b[0] then 0 else 1 + LeadingZeroes(b[1..])
  }

  /** bitstream_read_ueg; None where it returns false.  A shift by 32 is not defined in C. */
  function ReadUe(b: Bits): (r: R<Option<nat>>)
    ensures r.Got? && r.value.Some? ==> r.value.value < M32
  {
    var z := LeadingZeroes(b);
    if z == |b| then Undef
    else if z == 0 then Got(Some(0), b[1..])
    else if z > 32 then Got(None, b[z + 1..])
    else if z == 32 then Undef
    else UegSuffix(b[z + 1..], z)
  }

  /** The z bits behind the first one bit, in 32-bit arithmetic. */
  function UegSuffix(b: Bits, z: nat): (r: R<Option<nat>>)
    ensures r.Got? && r.value.Some? ==> r.value.value < M32
  {
    if |b| < z then Undef else Got(Some(W32(Pow2(z) - 1 + Val(b[..z]))), b[z..])
  }

  /** The signed value that bitstream_read_eg makes of a code number. */
  function SignedOf(code: nat): (v: int)
    requires code < M32
  {
    if code % 2 == 1 then Half(I32(W32(code + 1))) else I32(W32(-(code / 2)))
  }

  function ReadSe(b: Bits): R<Option<int>> {
    var (code, rest) :- ReadUe(b);
    Got(if code.None? then None else Some(SignedOf(code.value)), rest)
  }

  /** A read whose result the C code ignores. */
  function SkipUe(b: Bits): R<()> {
    var (_, rest) :- ReadUe(b);
    Got((), rest)
  }

  function SkipSe(b: Bits): R<()> {
    var (_, rest) :- ReadSe(b);
    Got((), rest)
  }

  function SkipSes(b: Bits, n: nat): R<()>
    decreases n
  {
    if n == 0 then Got((), b)
    else
      var (_, b) :- SkipSe(b);
      SkipSes(b, n - 1)
  }

  /** A read into a variable that is used although the call may have failed. */
  function ReadUeSet(b: Bits): R<nat> {
    var (v, rest) :- ReadUe(b);
    if v.None? then Undef else Got(v.value, rest)
  }

  /** A read into a variable that was set to zero before. */
  function ReadUeOrZero(b: Bits): R<nat> {
    var (v, rest) :- ReadUe(b);
    Got(if v.None? then 0 else v.value, rest)
  }

  /** The unsigned 32-bit update in bitstream_skip_scaling_list. */
  function NextScale(lastScale: nat, deltaScale: int): (r: nat)
    ensures r < 256
  {
    W32(W32(lastScale + W32(deltaScale)) + 256) % 256
  }

  /** bitstream_skip_scaling_list from entry j on; a failed read ends it. */
  function SkipScalingList(b: Bits, j: nat, count: nat, lastScale: nat, nextScale: nat): R<()>
    decreases count - j
  {
    if j >= count then Got((), b)
    else if nextScale == 0 then SkipScalingList(b, j + 1, count, lastScale, 0)
    else
      var (delta, b) :- ReadSe(b);
      if delta.None? then Got((), b)
      else
        var next := NextScale(lastScale, delta.value);
        SkipScalingList(b, j + 1, count, if next == 0 then lastScale else next, next)
  }

  // ---------- writers ----------

  function U(n: nat, v: nat, rest: Bits): Bits { Fixed(n, v) + rest }

  function Flag(v: bool, rest: Bits): Bits { [v] + rest }

  /** floor(log2(n)) */
  function Log2(n: nat): (z: nat)
    requires n > 0
    ensures Pow2(z) <= n < Pow2(z + 1)
  {
    if n == 1 then 0 else 1 + Log2(n / 2)
  }

  function Falses(n: nat): (z: Bits)
    ensures |z| == n
    ensures forall i :: 0 <= i < n ==> !z[i]
  {
    seq(n, _ => false)
  }

  /** ue(v), section 9.1 of ITU-T H.264: z zeroes, a one, and the z bits of codeNum + 1 below its top bit. */
  function Ue(codeNum: nat, rest: Bits): (bits: Bits)
    ensures |bits| == 2 * Log2(codeNum + 1) + 1 + |rest|
  {
    var z := Log2(codeNum + 1);
    Falses(z) + ([true] + U(z, codeNum + 1 - Pow2(z), rest))
  }

  /** Table 9-3 of ITU-T H.264: 1, -1, 2, -2, ... are the code numbers 1, 2, 3, 4, ... */
  function CodeOf(v: int): (codeNum: nat) {
    if v > 0 then 2 * v - 1 else -2 * v
  }

  function Se(v: int, rest: Bits): Bits { Ue(CodeOf(v), rest) }

  // ---------- reading undoes writing ----------

  lemma ReadNU(n: nat, v: nat, rest: Bits)
    requires v < Pow2(n)
    ensures ReadN(U(n, v, rest), n) == Got(v, rest)
  {
    ValFixed(n, v);
    assert U(n, v, rest)[..n] == Fixed(n, v);
  }

  lemma SkipU(n: nat, v: nat, rest: Bits)
    ensures Skip(U(n, v, rest), n) == Got((), rest)
  {
  }

  lemma SkipU2(n: nat, v: nat, m: nat, w: nat, rest: Bits)
    ensures Skip(U(n, v, U(m, w, rest)), n + m) == Got((), rest)
  {
    assert U(n, v, U(m, w, rest))[n + m..] == rest;
  }

  lemma {:induction false} LeadingZeroesUnique(b: Bits, z: nat)
    requires z < |b| && b[z] && forall i :: 0 <= i < z ==> !b[i]
    ensures LeadingZeroes(b) == z
  {
    if z > 0 {
      LeadingZeroesUnique(b[1..], z - 1);
    }
  }

  lemma Log2Below(n: nat, k: nat)
    requires 0 < n < Pow2(k)
    ensures Log2(n) < k
  {
    if Log2(n) >= k {
      Pow2Monotone(k, Log2(n));
    }
  }

  lemma LogBelow32(n: nat)
    requires 0 < n < M32
    ensures Log2(n) < 32
  {
    Pow2Constants();
    Log2Below(n, 32);
  }

  /** bitstream_read_ueg inverts ue(v) for every code number below 2^32 - 1, in 32-bit arithmetic. */
  lemma ReadUeUe(codeNum: nat, rest: Bits)
    requires codeNum < M32 - 1
    ensures ReadUe(Ue(codeNum, rest)) == Got(Some(codeNum), rest)
  {
    var z := Log2(codeNum + 1);
    assert Pow2(z + 1) == 2 * Pow2(z);
    hide Pow2, Log2, LeadingZeroes, Val, Fixed;
    var b := Ue(codeNum, rest);
    LeadingZeroesUnique(b, z);
    assert b[z + 1..] == U(z, codeNum + 1 - Pow2(z), rest);
    if z > 0 {
      LogBelow32(codeNum + 1);
      ReadNU(z, codeNum + 1 - Pow2(z), rest);
      assert W32(Pow2(z) - 1 + (codeNum + 1 - Pow2(z))) == codeNum;
    }
  }

  /** The largest code number is where it stops: 32 leading zeroes would ask for a shift by 32. */
  lemma ReadUeLimit(rest: Bits)
    ensures ReadUe(Ue(M32 - 1, rest)) == Undef
  {
    var b := Ue(M32 - 1, rest);
    Pow2Constants();
    Log2Is(M32, 32);
    LeadingZeroesUnique(b, 32);
  }

  lemma Log2Is(n: nat, z: nat)
    requires n > 0 && Pow2(z) <= n < Pow2(z + 1)
    ensures Log2(n) == z
  {
    Log2Below(n, z + 1);
    if Log2(n) < z {
      Pow2Monotone(Log2(n) + 1, z);
    }
  }

  /** Section 9.1.1: the value of a code number. */
  function StdSigned(code: nat): int {
    if code % 2 == 1 then (code + 1) / 2 else -(code / 2)
  }

  /** bitstream_read_eg meets section 9.1.1 exactly for even code numbers and for odd ones below 2^31 - 1. */
  lemma SignedExact(code: nat)
    requires code < M32
    ensures SignedOf(code) == StdSigned(code) <==> code % 2 == 0 || code < 0x7FFF_FFFF
  {
    if code % 2 == 0 && code > 0 {
      assert W32(-(code / 2)) == M32 - code / 2;
    }
  }

  /** Of the values of se(v), bitstream_read_eg gives back exactly those below 2^30. */
  lemma ReadSeSe(v: int, rest: Bits)
    requires -0x7FFF_FFFF <= v <= 0x7FFF_FFFF
    ensures ReadSe(Se(v, rest)) == Got(Some(v), rest) <==> v < 0x4000_0000
  {
    ReadUeUe(CodeOf(v), rest);
    SignedExact(CodeOf(v));
  }

  /** Skipping needs no range but that of code numbers. */
  lemma SkipSeSe(v: int, rest: Bits)
    requires -0x7FFF_FFFF <= v <= 0x7FFF_FFFF
    ensures SkipSe(Se(v, rest)) == Got((), rest)
  {
    ReadUeUe(CodeOf(v), rest);
  }

  lemma SkipUeUe(v: nat, rest: Bits)
    requires v < M32 - 1
    ensures SkipUe(Ue(v, rest)) == Got((), rest)
    ensures ReadUeSet(Ue(v, rest)) == Got(v, rest)
    ensures ReadUeOrZero(Ue(v, rest)) == Got(v, rest)
  {
    ReadUeUe(v, rest);
  }

  /** The update of section 7.3.2.1.1.1. */
  function StdNextScale(lastScale: nat, deltaScale: int): (r: nat)
    ensures r < 256
  {
    (lastScale + deltaScale + 256) % 256
  }

  /** Despite unsigned wrap-around the scale is the standard's. */
  lemma NextScaleExact(lastScale: nat, deltaScale: int)
    requires lastScale < 256
    ensures NextScale(lastScale, deltaScale) == StdNextScale(lastScale, deltaScale)
  {
    WrapSum(lastScale, deltaScale);
    WrapMod256(lastScale + deltaScale + 256);
  }

  lemma WrapSum(x: int, y: int)
    ensures W32(W32(x + W32(y)) + 256) == W32(x + y + 256)
  {
  }

  lemma WrapMod256(x: int)
    ensures W32(x) % 256 == x % 256
  {
    var q := x / M32;
    ModShift(W32(x), 0x100_0000 * q, 256);
  }

  lemma ModShift(r: int, k: int, m: nat)
    requires m > 0
    ensures (r + m * k) % m == r % m
  {
    var q := r / m;
    assert r + m * k == m * (q + k) + r % m;
    ModUnique(r + m * k, m, q + k, r % m);
  }

  lemma ModUnique(x: int, m: nat, q: int, r: int)
    requires m > 0 && x == m * q + r && 0 <= r < m
    ensures x % m == r
  {
    var d := x / m - q;
    assert m * d == r - x % m;
    if d > 0 {
      MulMonotone(m, 1, d);
    } else if d < 0 {
      MulMonotone(m, 1, -d);
    }
  }
}
