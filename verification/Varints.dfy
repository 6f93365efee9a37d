/** Base 128 varints (encodeVarintRing, sovRing in ring/ring.pb.go and their twins in kv.pb.go). */
module Varints {

  // Their size, writing them backwards into a buffer, and reading them, after the section "Base 128 Varints" of the
  // Protocol Buffers encoding specification; also what the decoders of all messages have in common: bytes, widths and
  // errors.

  type Byte = b: int | 0 <= b < 256

  const TWO_63: int := 0x8000_0000_0000_0000

  type Uint64 = v: int | 0 <= v < 0x1_0000_0000_0000_0000
  type Int64 = v: int | -0x8000_0000_0000_0000 <= v < 0x8000_0000_0000_0000
  type Int32 = v: int | -0x8000_0000 <= v < 0x8000_0000

  /** The errors of the decoders. The last one is not returned: the decoder panics, indexing the data out of range. */
  datatype DecodeError =
    | IntOverflow | UnexpectedEOF | InvalidLength | EndGroup | IllegalTag | WrongWireType | IllegalWireType
    | IndexOutOfRange

  datatype Result<+T> = Ok(value: T) | Err(error: DecodeError)

  /** Conversions between signed and unsigned numbers keep the bits. */
  function Unsigned64(v: Int64): Uint64 {
    if v < 0 then v + 0x1_0000_0000_0000_0000 else v
  }

  function Signed64(v: Uint64): Int64 {
    if v >= TWO_63 then v - 0x1_0000_0000_0000_0000 else v
  }

  function Signed32(v: nat): Int32
    requires v < 0x1_0000_0000
  {
    if v >= 0x8000_0000 then v - 0x1_0000_0000 else v
  }

  // ---------------------------------------------------------------- varints

  /** Seven bits per byte, the lowest first, every byte but the last marked by its highest bit. */
  function Varint(v: nat): (r: seq<Byte>)
    ensures |r| > 0
  {
    if v < 128 then [v] else [v % 128 + 128] + Varint(v / 128)
  }

  function Pow128(n: nat): (r: nat)
    ensures r > 0
  {
    if n == 0 then 1 else 128 * Pow128(n - 1)
  }

  lemma {:induction false} VarintIsShort(v: nat, n: nat)
    requires n > 0 && v < Pow128(n)
    ensures |Varint(v)| <= n
  {
    if v >= 128 {
      VarintIsShort(v / 128, n - 1);
    }
  }

  lemma VarintOf64(v: Uint64)
    ensures |Varint(v)| <= 10
  {
    assert Pow128(5) == 0x8_0000_0000;
    assert Pow128(10) == 0x40_0000_0000_0000_0000 by {
      assert Pow128(10) == 128 * 128 * 128 * 128 * 128 * Pow128(5);
    }
    VarintIsShort(v, 10);
  }

  // ---------------------------------------------------------------- their size

  /** The number of bits, as bits.Len64 counts them. */
  function BitLen(x: nat): nat {
    if x == 0 then 0 else 1 + BitLen(x / 2)
  }

  /** Setting the lowest bit. */
  function OrOne(x: nat): nat {
    if x % 2 == 0 then x + 1 else x
  }

  function Sov(x: nat): nat {
    (BitLen(OrOne(x)) + 6) / 7
  }

  lemma SevenBits(x: nat)
    ensures x < 128 ==> BitLen(x) <= 7
    ensures x >= 128 ==> BitLen(x) == 7 + BitLen(x / 128)
  {
    var a, b := x / 2, x / 4;
    var c, d := x / 8, x / 16;
    var e, f := x / 32, x / 64;
    assert a / 2 == b && b / 2 == c && c / 2 == d && d / 2 == e && e / 2 == f && f / 2 == x / 128;
    if x >= 128 {
      assert BitLen(x) == 1 + BitLen(a) && BitLen(a) == 1 + BitLen(b) && BitLen(b) == 1 + BitLen(c);
      assert BitLen(c) == 1 + BitLen(d) && BitLen(d) == 1 + BitLen(e) && BitLen(e) == 1 + BitLen(f);
      assert BitLen(f) == 1 + BitLen(x / 128);
    } else {
      assert BitLen(x) <= 1 + BitLen(a) && BitLen(a) <= 1 + BitLen(b) && BitLen(b) <= 1 + BitLen(c);
      assert BitLen(c) <= 1 + BitLen(d) && BitLen(d) <= 1 + BitLen(e) && BitLen(e) <= 1 + BitLen(f);
      assert BitLen(f) <= 1;
    }
  }

  lemma OrOneKeepsLength(x: nat)
    requires x > 0
    ensures BitLen(OrOne(x)) == BitLen(x)
  {
    assert OrOne(x) / 2 == x / 2;
  }

  /** sov computes the length of the encoding from the number of bits. */
  lemma {:induction false} SovIsLength(x: nat)
    ensures Sov(x) == |Varint(x)|
  {
    SevenBits(OrOne(x));
    if x < 128 {
      assert BitLen(OrOne(x)) >= 1;
    } else {
      SovIsLength(x / 128);
      OrOneKeepsLength(x / 128);
      assert OrOne(x) / 128 == x / 128;
    }
  }

  // ---------------------------------------------------------------- writing backwards

  /** Between lo and hi the buffer holds the bytes, elsewhere what it held before. */
  ghost predicate Wrote(before: seq<Byte>, after: seq<Byte>, lo: int, hi: int, bytes: seq<Byte>) {
    && |after| == |before| && 0 <= lo <= hi <= |before| && hi - lo == |bytes|
    && after[lo..hi] == bytes && after[..lo] == before[..lo] && after[hi..] == before[hi..]
  }

  /** What is written below lands in front. */
  lemma WroteMore(a: seq<Byte>, b: seq<Byte>, c: seq<Byte>, lo: int, mid: int, hi: int, front: seq<Byte>,
      back: seq<Byte>)
    requires Wrote(a, b, mid, hi, back) && Wrote(b, c, lo, mid, front)
    ensures Wrote(a, c, lo, hi, front + back)
  {
    assert c[lo..hi] == c[lo..mid] + c[mid..hi];
    assert c[mid..hi] == c[mid..][..hi - mid] == b[mid..][..hi - mid] == b[mid..hi];
    assert c[hi..] == c[mid..][hi - mid..] == b[mid..][hi - mid..] == b[hi..];
    assert c[..lo] == b[..lo] == b[..mid][..lo] == a[..mid][..lo] == a[..lo];
  }

  lemma WroteNothing(a: seq<Byte>, i: int)
    requires 0 <= i <= |a|
    ensures Wrote(a, a, i, i, [])
  {
  }

  /** encodeVarint: steps back by the size, then writes forward. */
  method EncodeVarint(buf: array<Byte>, offset: int, v: nat) returns (base: int)
    requires |Varint(v)| <= offset <= buf.Length
    modifies buf
    ensures Wrote(old(buf[..]), buf[..], base, offset, Varint(v))
  {
    SovIsLength(v);
    var o := offset - Sov(v);
    base := o;
    var x := v;
    ghost var written: seq<Byte> := [];
    while x >= 128
      invariant base <= o < offset && o - base == |written|
      invariant written + Varint(x) == Varint(v)
      invariant buf[base..o] == written
      invariant buf[..base] == old(buf[..base]) && buf[offset..] == old(buf[offset..])
    {
      OneMoreByte(written, x);
      buf[o] := x % 128 + 128;
      written := written + [x % 128 + 128];
      assert buf[base..o + 1] == buf[base..o] + [buf[o]];
      x := x / 128;
      o := o + 1;
    }
    buf[o] := x;
    assert buf[base..o + 1] == buf[base..o] + [buf[o]];
  }

  lemma OneMoreByte(written: seq<Byte>, x: nat)
    requires x >= 128
    ensures written + Varint(x) == (written + [x % 128 + 128]) + Varint(x / 128)
    ensures |Varint(x)| == 1 + |Varint(x / 128)|
  {
  }

  method WriteByte(buf: array<Byte>, i: int, b: Byte) returns (lo: int)
    requires 0 < i <= buf.Length
    modifies buf
    ensures lo == i - 1 && Wrote(old(buf[..]), buf[..], lo, i, [b])
  {
    lo := i - 1;
    buf[lo] := b;
  }

  /** Steps back and copies. */
  method WriteBytes(buf: array<Byte>, i: int, s: seq<Byte>) returns (lo: int)
    requires |s| <= i <= buf.Length
    modifies buf
    ensures lo == i - |s| && Wrote(old(buf[..]), buf[..], lo, i, s)
  {
    lo := i - |s|;
    for j := 0 to |s|
      invariant buf[lo..lo + j] == s[..j]
      invariant buf[..lo] == old(buf[..lo]) && buf[i..] == old(buf[i..])
    {
      buf[lo + j] := s[j];
    }
  }

  // ---------------------------------------------------------------- reading

  /** The part stands at position i. */
  ghost predicate At(data: seq<Byte>, i: int, part: seq<Byte>) {
    0 <= i <= i + |part| <= |data| && data[i..i + |part|] == part
  }

  lemma SplitAt(data: seq<Byte>, i: int, a: seq<Byte>, b: seq<Byte>)
    requires At(data, i, a + b)
    ensures At(data, i, a) && At(data, i + |a|, b)
  {
    var whole := data[i..i + |a + b|];
    assert data[i..i + |a|] == whole[..|a|] == a;
    assert data[i + |a|..i + |a| + |b|] == whole[|a|..] == b;
  }

  /** The number read from position i, unbounded, and the position behind it; k bytes have been read before. */
  function ReadFrom(data: seq<Byte>, i: nat, k: nat): (r: Result<(nat, nat)>)
    ensures r.Ok? ==> i < r.value.1 <= |data|
    decreases |data| - i
  {
    if k >= 10 then Err(IntOverflow)
    else if i >= |data| then Err(UnexpectedEOF)
    else if data[i] < 128 then Ok((data[i], i + 1))
    else
      match ReadFrom(data, i + 1, k + 1)
      case Ok(rest) => Ok((data[i] - 128 + 128 * rest.0, rest.1))
      case Err(e) => Err(e)
  }

  /** Numbers are read into variables of 32 or 64 bits. */
  datatype Width = Bits32 | Bits64

  /** What such a variable keeps of a number. */
  function Kept(v: nat, width: Width): (r: nat)
    ensures width == Bits32 ==> r < 0x1_0000_0000
    ensures width == Bits64 ==> r < 0x1_0000_0000_0000_0000
  {
    if width == Bits32 then v % 0x1_0000_0000 else v % 0x1_0000_0000_0000_0000
  }

  function Read(data: seq<Byte>, i: nat, width: Width): (r: Result<(nat, nat)>)
    ensures r.Ok? && width == Bits32 ==> r.value.0 < 0x1_0000_0000
    ensures r.Ok? && width == Bits64 ==> r.value.0 < 0x1_0000_0000_0000_0000
    ensures r.Ok? ==> i < r.value.1 <= |data|
  {
    match ReadFrom(data, i, 0)
    case Ok(v) => Ok((Kept(v.0, width), v.1))
    case Err(e) => Err(e)
  }

  lemma {:induction false} ReadsVarint(data: seq<Byte>, i: nat, k: nat, v: nat)
    requires At(data, i, Varint(v)) && k + |Varint(v)| <= 10
    ensures ReadFrom(data, i, k) == Ok((v, i + |Varint(v)|))
    decreases v
  {
    assert data[i] == data[i..i + |Varint(v)|][0];
    if v >= 128 {
      SplitAt(data, i, [v % 128 + 128], Varint(v / 128));
      ReadsVarint(data, i + 1, k + 1, v / 128);
    }
  }

  lemma ReadsBack(data: seq<Byte>, i: nat, v: Uint64)
    requires At(data, i, Varint(v))
    ensures Read(data, i, Bits64) == Ok((v, i + |Varint(v)|))
    ensures Read(data, i, Bits32) == Ok((Kept(v, Bits32), i + |Varint(v)|))
  {
    VarintOf64(v);
    ReadsVarint(data, i, 0, v);
  }

  lemma KeptOfSum(a: nat, b: nat, width: Width)
    ensures Kept(Kept(a, width) + b, width) == Kept(a + b, width)
  {
    if width == Bits32 {
      var q, c := a / 0x1_0000_0000, Kept(a, Bits32) + b;
      assert a + b == 0x1_0000_0000 * (q + c / 0x1_0000_0000) + c % 0x1_0000_0000;
    } else {
      var q, c := a / 0x1_0000_0000_0000_0000, Kept(a, Bits64) + b;
      assert a + b == 0x1_0000_0000_0000_0000 * (q + c / 0x1_0000_0000_0000_0000) + c % 0x1_0000_0000_0000_0000;
    }
  }

  /**
   * The loop that every field starts with. Or-ing in seven bits above all bits read so far is written as adding them;
   * bits that do not fit are lost.
   */
  method ReadVarint(data: seq<Byte>, start: nat, width: Width) returns (r: Result<(nat, nat)>)
    ensures r == Read(data, start, width)
  {
    var v: nat, iNdEx: nat, shift: nat := 0, start, 0;
    // 2 to the power of shift
    var place: nat := 1;
    ghost var sum: nat, k: nat := 0, 0;
    while true
      invariant shift == 7 * k && k <= 10 && iNdEx == start + k && place > 0 && v == Kept(sum, width)
      invariant Shifted(sum, place, ReadFrom(data, iNdEx, k)) == ReadFrom(data, start, 0)
      decreases 10 - k
    {
      if shift >= 64 {
        return Err(IntOverflow);
      }
      if iNdEx >= |data| {
        return Err(UnexpectedEOF);
      }
      var b := data[iNdEx];
      var added: nat := place * (b % 128);
      ShiftOne(data, iNdEx, k, sum, place, added);
      KeptOfSum(sum, added, width);
      iNdEx := iNdEx + 1;
      v := Kept(v + added, width);
      sum := sum + added;
      if b < 128 {
        return Ok((v, iNdEx));
      }
      place := place * 128;
      shift, k := shift + 7, k + 1;
    }
  }

  function Shifted(sum: nat, place: nat, rest: Result<(nat, nat)>): Result<(nat, nat)> {
    match rest
    case Ok(v) => Ok((sum + place * v.0, v.1))
    case Err(e) => Err(e)
  }

  lemma ShiftOne(data: seq<Byte>, i: nat, k: nat, sum: nat, place: nat, added: nat)
    requires k < 10 && i < |data| && added == place * (data[i] % 128)
    ensures data[i] < 128 ==> Shifted(sum, place, ReadFrom(data, i, k)) == Ok((sum + added, i + 1))
    ensures data[i] >= 128 ==>
      Shifted(sum, place, ReadFrom(data, i, k)) == Shifted(sum + added, place * 128, ReadFrom(data, i + 1, k + 1))
  {
    if data[i] >= 128 && ReadFrom(data, i + 1, k + 1).Ok? {
      var rest := ReadFrom(data, i + 1, k + 1).value.0;
      Distribute(place, data[i] - 128, rest);
    }
  }

  lemma Distribute(place: nat, low: nat, rest: nat)
    ensures place * (low + 128 * rest) == place * low + place * 128 * rest
  {
  }
}
