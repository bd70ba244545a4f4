/** The wire format of the stream layer (include/stream/stream.h), as pure
    functions over byte sequences: big-endian fixed-width integers assembled
    from 8-bit primitives, two's-complement signed integers, booleans,
    range-checked reads and the wide-string codec shaped like UTF-8.
    The `Reader` and `Writer` classes in module StreamIO are proved against
    these functions. */
module StreamCodec {
  import opened Wrappers

  type Byte = x: int | 0 <= x < 0x100
  type U16 = x: int | 0 <= x < 0x1_0000
  type U32 = x: int | 0 <= x < 0x1_0000_0000
  type U64 = x: int | 0 <= x < 0x1_0000_0000_0000_0000
  type S8 = x: int | -0x80 <= x < 0x80
  type S16 = x: int | -0x8000 <= x < 0x8000
  type S32 = x: int | -0x8000_0000 <= x < 0x8000_0000
  type S64 = x: int | -0x8000_0000_0000_0000 <= x < 0x8000_0000_0000_0000

  /** A `wchar_t` as the encoder sees it once it is widened to `uint32_t`. */
  type WChar = U32

  /** The exception classes of the stream layer. */
  datatype IOError = EndOfFile | NoStreamsLeft | UTFDataFormat | InvalidDataValue

  /** What a read starting at offset `i` produces: the value or the exception
      it throws, and the offset reached when it returns or throws. */
  datatype Parse<+T> = Parse(result: Result<T, IOError>, next: nat)

  function Fail<T>(e: IOError, next: nat): Parse<T>
  {
    Parse(Failure(e), next)
  }

  // ---------------------------------------------------------------------------
  // Reference definition: the value of a big-endian byte string

  function Pow256(n: nat): nat
  {
    if n == 0 then 1 else 0x100 * Pow256(n - 1)
  }

  /** The number a byte string denotes, most significant byte first. */
  function BigEndian(bs: seq<Byte>): nat
  {
    if bs == [] then 0 else BigEndian(bs[..|bs| - 1]) * 0x100 + bs[|bs| - 1]
  }

  /** Concatenating big-endian strings shifts the first by the length of the second. */
  lemma {:induction false} BigEndianConcat(a: seq<Byte>, b: seq<Byte>)
    ensures BigEndian(a + b) == BigEndian(a) * Pow256(|b|) + BigEndian(b)
  {
    if b == [] {
      assert a + b == a;
    } else {
      var b' := b[..|b| - 1];
      assert (a + b)[..|a + b| - 1] == a + b';
      BigEndianConcat(a, b');
      var x, p := BigEndian(a), Pow256(|b'|);
      assert Pow256(|b|) == p * 0x100;
      assert x * (p * 0x100) == (x * p) * 0x100 by { ShiftProduct(x, p); }
      assert BigEndian(b) == BigEndian(b') * 0x100 + b[|b| - 1];
    }
  }

  lemma ShiftProduct(x: nat, p: nat)
    ensures x * (p * 0x100) == (x * p) * 0x100
  {
  }

  // ---------------------------------------------------------------------------
  // Writer: fixed-width integers (stream.h:352-386) and booleans (stream.h:409-412)

  function EncodeU8(v: Byte): seq<Byte>
  {
    [v]
  }

  /** `writeU16`: the high byte, then the low byte. */
  function EncodeU16(v: U16): (r: seq<Byte>)
    ensures |r| == 2
  {
    EncodeU8(v / 0x100) + EncodeU8(v % 0x100)
  }

  /** `writeU32`: the high half, then the low half, each through `writeU16`. */
  function EncodeU32(v: U32): (r: seq<Byte>)
    ensures |r| == 4
  {
    EncodeU16(v / 0x1_0000) + EncodeU16(v % 0x1_0000)
  }

  /** `writeU64`: the high word, then the low word, each through `writeU32`. */
  function EncodeU64(v: U64): (r: seq<Byte>)
    ensures |r| == 8
  {
    EncodeU32(v / 0x1_0000_0000) + EncodeU32(v % 0x1_0000_0000)
  }

  /** Two's-complement reinterpretation of an unsigned value below `2 * half`. */
  function Signed(u: int, half: int): (v: int)
    requires half > 0 && 0 <= u < 2 * half
    ensures -half <= v < half
    ensures v == u || v == u - 2 * half
  {
    if u < half then u else u - 2 * half
  }

  /** Two's-complement reinterpretation of a signed value as unsigned. */
  function Unsigned(v: int, half: int): (u: int)
    requires half > 0 && -half <= v < half
    ensures 0 <= u < 2 * half
    ensures u == v || u == v + 2 * half
  {
    if v < 0 then v + 2 * half else v
  }

  lemma SignedUnsigned(v: int, half: int)
    requires half > 0 && -half <= v < half
    ensures Signed(Unsigned(v, half), half) == v
  {
  }

  function EncodeS8(v: S8): seq<Byte>
  {
    EncodeU8(Unsigned(v, 0x80))
  }

  function EncodeS16(v: S16): seq<Byte>
  {
    EncodeU16(Unsigned(v, 0x8000))
  }

  function EncodeS32(v: S32): seq<Byte>
  {
    EncodeU32(Unsigned(v, 0x8000_0000))
  }

  function EncodeS64(v: S64): seq<Byte>
  {
    EncodeU64(Unsigned(v, 0x8000_0000_0000_0000))
  }

  /** `writeBool`: exactly one byte, 1 for true and 0 for false. */
  function EncodeBool(b: bool): seq<Byte>
  {
    EncodeU8(if b then 1 else 0)
  }

  // ---------------------------------------------------------------------------
  // Reader: fixed-width integers (stream.h:131-181) and booleans (stream.h:208-211)

  /** `readU8` over the bytes `s`: throws EOFException, leaving the offset, when nothing is left. */
  function DecodeU8(s: seq<Byte>, i: nat): Parse<Byte>
  {
    if i < |s| then Parse(Success(s[i]), i + 1) else Fail(EndOfFile, i)
  }

  /** `readU16`: `(readU8() << 8) | readU8()`. */
  function DecodeU16(s: seq<Byte>, i: nat): Parse<U16>
  {
    var hi := DecodeU8(s, i);
    if hi.result.Failure? then Fail(hi.result.error, hi.next)
    else
      var lo := DecodeU8(s, hi.next);
      if lo.result.Failure? then Fail(lo.result.error, lo.next)
      else Parse(Success(hi.result.value * 0x100 + lo.result.value), lo.next)
  }

  /** `readU32`: `(readU16() << 16) | readU16()`. */
  function DecodeU32(s: seq<Byte>, i: nat): Parse<U32>
  {
    var hi := DecodeU16(s, i);
    if hi.result.Failure? then Fail(hi.result.error, hi.next)
    else
      var lo := DecodeU16(s, hi.next);
      if lo.result.Failure? then Fail(lo.result.error, lo.next)
      else Parse(Success(hi.result.value * 0x1_0000 + lo.result.value), lo.next)
  }

  /** `readU64`: `(readU32() << 32) | readU32()`. */
  function DecodeU64(s: seq<Byte>, i: nat): Parse<U64>
  {
    var hi := DecodeU32(s, i);
    if hi.result.Failure? then Fail(hi.result.error, hi.next)
    else
      var lo := DecodeU32(s, hi.next);
      if lo.result.Failure? then Fail(lo.result.error, lo.next)
      else Parse(Success(hi.result.value * 0x1_0000_0000 + lo.result.value), lo.next)
  }

  function DecodeS8(s: seq<Byte>, i: nat): Parse<S8>
  {
    var p := DecodeU8(s, i);
    if p.result.Failure? then Fail(p.result.error, p.next)
    else Parse(Success(Signed(p.result.value, 0x80)), p.next)
  }

  function DecodeS16(s: seq<Byte>, i: nat): Parse<S16>
  {
    var p := DecodeU16(s, i);
    if p.result.Failure? then Fail(p.result.error, p.next)
    else Parse(Success(Signed(p.result.value, 0x8000)), p.next)
  }

  function DecodeS32(s: seq<Byte>, i: nat): Parse<S32>
  {
    var p := DecodeU32(s, i);
    if p.result.Failure? then Fail(p.result.error, p.next)
    else Parse(Success(Signed(p.result.value, 0x8000_0000)), p.next)
  }

  function DecodeS64(s: seq<Byte>, i: nat): Parse<S64>
  {
    var p := DecodeU64(s, i);
    if p.result.Failure? then Fail(p.result.error, p.next)
    else Parse(Success(Signed(p.result.value, 0x8000_0000_0000_0000)), p.next)
  }

  /** `readBool`: any non-zero byte is true. */
  function DecodeBool(s: seq<Byte>, i: nat): Parse<bool>
  {
    var p := DecodeU8(s, i);
    if p.result.Failure? then Fail(p.result.error, p.next)
    else Parse(Success(p.result.value != 0), p.next)
  }

  // ---------------------------------------------------------------------------
  // Range-checked reads (stream.h:105-113, 272-303) and enum reads (stream.h:601-611)

  /** `limitAfterRead`: InvalidDataValueException unless `min <= v <= max`. */
  function LimitAfterRead(v: int, min: int, max: int): Result<int, IOError>
  {
    if v < min || v > max then Failure(InvalidDataValue) else Success(v)
  }

  /** `readLimited*`: the plain read, then `limitAfterRead`; the offset is that of the plain read. */
  function Limited(p: Parse<int>, min: int, max: int): Parse<int>
  {
    if p.result.Failure? then p else Parse(LimitAfterRead(p.result.value, min, max), p.next)
  }

  /** `read<T>` for an enum whose underlying type is one byte:
      `read_limited` between `enum_first` and `enum_last`. */
  function DecodeEnumU8(s: seq<Byte>, i: nat, first: Byte, last: Byte): Parse<int>
  {
    Limited(DecodeU8(s, i), first, last)
  }

  /** `write<T>` for such an enum: its numeric value through `writeU8`. */
  function EncodeEnumU8(value: Byte): seq<Byte>
  {
    EncodeU8(value)
  }

  // ---------------------------------------------------------------------------
  // Wide strings (stream.h:212-271, 413-442)

  /** A byte of the form 10xxxxxx, that is `(b & 0xC0) == 0x80`. */
  predicate IsContinuation(b: Byte)
  {
    0x80 <= b < 0xC0
  }

  /** Characters the decoder accepts back: it rejects values from 0x10FFFF up. */
  predicate Decodable(ch: WChar)
  {
    ch < 0x10FFFF
  }

  /** `writeString`, one character: 1 byte for 1..0x7F, 2 bytes for NUL and
      for values below 0x800 (so NUL becomes C0 80), 3 bytes below 0x1000
      and 4 bytes for everything else, bits above 21 being dropped by the
      `& 0x7` mask. `x | y` on disjoint bit fields is written `x + y`. */
  function EncodeChar(ch: WChar): (r: seq<Byte>)
    ensures 1 <= |r| <= 4 && r[0] != 0
    ensures |r| == 1 <==> 0 < ch < 0x80
    ensures |r| == 2 <==> (ch == 0 || 0x80 <= ch < 0x800)
    ensures |r| == 3 <==> 0x800 <= ch < 0x1000
    ensures |r| == 4 <==> 0x1000 <= ch
    ensures forall k :: 1 <= k < |r| ==> IsContinuation(r[k])
  {
    if ch != 0 && ch < 0x80 then
      [ch]
    else if ch < 0x800 then
      [0xC0 + (ch / 0x40) % 0x20, 0x80 + ch % 0x40]
    else if ch < 0x1000 then
      [0xE0 + (ch / 0x1000) % 0x10, 0x80 + (ch / 0x40) % 0x40, 0x80 + ch % 0x40]
    else
      [0xF0 + (ch / 0x4_0000) % 0x8, 0x80 + (ch / 0x1000) % 0x40,
       0x80 + (ch / 0x40) % 0x40, 0x80 + ch % 0x40]
  }

  /** The encodings of all characters, in order, without the terminator. */
  function EncodeChars(s: seq<WChar>): seq<Byte>
  {
    if s == [] then [] else EncodeChar(s[0]) + EncodeChars(s[1..])
  }

  /** `writeString`: every character, then one 0 terminator. */
  function EncodeString(s: seq<WChar>): seq<Byte>
  {
    EncodeChars(s) + [0]
  }

  /** One step of the `readString` loop starting at offset `i`: `None` for
      the 0 terminator, `Some(ch)` for a character, or the exception. */
  function DecodeChar(s: seq<Byte>, i: nat): (p: Parse<Option<WChar>>)
    ensures p.result.Success? ==> i < p.next <= |s|
    ensures p.result.Success? && p.result.value.Some? ==> Decodable(p.result.value.value)
  {
    var b1 := DecodeU8(s, i);
    if b1.result.Failure? then Fail(b1.result.error, b1.next)
    else
      var c1 := b1.result.value;
      if c1 == 0 then
        Parse(Success(None), b1.next)
      else if c1 < 0x80 then
        Parse(Success(Some(c1)), b1.next)
      else if 0xC0 <= c1 < 0xE0 then
        var b2 := DecodeU8(s, b1.next);
        if b2.result.Failure? then Fail(b2.result.error, b2.next)
        else if !IsContinuation(b2.result.value) then Fail(UTFDataFormat, b2.next)
        else Parse(Success(Some((c1 - 0xC0) * 0x40 + (b2.result.value - 0x80))), b2.next)
      else if 0xE0 <= c1 < 0xF0 then
        var b2 := DecodeU8(s, b1.next);
        if b2.result.Failure? then Fail(b2.result.error, b2.next)
        else if !IsContinuation(b2.result.value) then Fail(UTFDataFormat, b2.next)
        else
          var b3 := DecodeU8(s, b2.next);
          if b3.result.Failure? then Fail(b3.result.error, b3.next)
          else if !IsContinuation(b3.result.value) then Fail(UTFDataFormat, b3.next)
          else
            var v := ((c1 - 0xE0) * 0x40 + (b2.result.value - 0x80)) * 0x40 + (b3.result.value - 0x80);
            Parse(Success(Some(v)), b3.next)
      else if 0xF0 <= c1 < 0xF8 then
        var b2 := DecodeU8(s, b1.next);
        if b2.result.Failure? then Fail(b2.result.error, b2.next)
        else if !IsContinuation(b2.result.value) then Fail(UTFDataFormat, b2.next)
        else
          var b3 := DecodeU8(s, b2.next);
          if b3.result.Failure? then Fail(b3.result.error, b3.next)
          else if !IsContinuation(b3.result.value) then Fail(UTFDataFormat, b3.next)
          else
            var b4 := DecodeU8(s, b3.next);
            if b4.result.Failure? then Fail(b4.result.error, b4.next)
            else if !IsContinuation(b4.result.value) then Fail(UTFDataFormat, b4.next)
            else
              var v := (((c1 - 0xF0) * 0x40 + (b2.result.value - 0x80)) * 0x40
                        + (b3.result.value - 0x80)) * 0x40 + (b4.result.value - 0x80);
              if v >= 0x10FFFF then Fail(UTFDataFormat, b4.next)
              else Parse(Success(Some(v)), b4.next)
      else
        Fail(UTFDataFormat, b1.next)
  }

  /** The `readString` loop from offset `i`, having already read `acc`. */
  function DecodeStringFrom(s: seq<Byte>, i: nat, acc: seq<WChar>): Parse<seq<WChar>>
    decreases |s| - i
  {
    var c := DecodeChar(s, i);
    match c.result
    case Failure(e) => Fail(e, c.next)
    case Success(None) => Parse(Success(acc), c.next)
    case Success(Some(ch)) => DecodeStringFrom(s, c.next, acc + [ch])
  }

  /** `readString`. */
  function DecodeString(s: seq<Byte>, i: nat): Parse<seq<WChar>>
  {
    DecodeStringFrom(s, i, [])
  }

  // ---------------------------------------------------------------------------
  // Properties of the integer codec

  function Max(a: nat, b: nat): nat
  {
    if a < b then b else a
  }

  lemma BigEndianPair(x: Byte, y: Byte)
    ensures BigEndian([x, y]) == x * 0x100 + y
  {
    assert [x][..0] == [];
    assert BigEndian([x]) == x;
    assert [x, y][..1] == [x];
  }

  lemma EncodeU16Value(v: U16)
    ensures BigEndian(EncodeU16(v)) == v
  {
    assert EncodeU16(v) == [v / 0x100, v % 0x100];
    BigEndianPair(v / 0x100, v % 0x100);
  }

  lemma EncodeU32Value(v: U32)
    ensures BigEndian(EncodeU32(v)) == v
  {
    BigEndianConcat(EncodeU16(v / 0x1_0000), EncodeU16(v % 0x1_0000));
    EncodeU16Value(v / 0x1_0000);
    EncodeU16Value(v % 0x1_0000);
    assert Pow256(2) == 0x1_0000;
  }

  lemma EncodeU64Value(v: U64)
    ensures BigEndian(EncodeU64(v)) == v
  {
    BigEndianConcat(EncodeU32(v / 0x1_0000_0000), EncodeU32(v % 0x1_0000_0000));
    EncodeU32Value(v / 0x1_0000_0000);
    EncodeU32Value(v % 0x1_0000_0000);
    assert Pow256(4) == 0x1_0000_0000;
  }

  /** `readU16` takes the next two bytes as a big-endian number, or throws
      EOFException, having consumed what was left, when fewer remain. */
  lemma DecodeU16Spec(s: seq<Byte>, i: nat)
    ensures i + 2 <= |s| ==> DecodeU16(s, i) == Parse(Success(BigEndian(s[i..i + 2])), i + 2)
    ensures i + 2 > |s| ==> DecodeU16(s, i) == Fail(EndOfFile, Max(i, |s|))
  {
    if i + 2 <= |s| {
      assert s[i..i + 2] == [s[i], s[i + 1]];
      BigEndianPair(s[i], s[i + 1]);
    }
  }

  /** `readU32`: the next four bytes, big-endian, or EOFException. */
  lemma DecodeU32Spec(s: seq<Byte>, i: nat)
    ensures i + 4 <= |s| ==> DecodeU32(s, i) == Parse(Success(BigEndian(s[i..i + 4])), i + 4)
    ensures i + 4 > |s| ==> DecodeU32(s, i) == Fail(EndOfFile, Max(i, |s|))
  {
    DecodeU16Spec(s, i);
    DecodeU16Spec(s, i + 2);
    if i + 4 <= |s| {
      assert s[i..i + 4] == s[i..i + 2] + s[i + 2..i + 4];
      BigEndianConcat(s[i..i + 2], s[i + 2..i + 4]);
      assert Pow256(2) == 0x1_0000;
    }
  }

  /** `readU64`: the next eight bytes, big-endian, or EOFException. */
  lemma DecodeU64Spec(s: seq<Byte>, i: nat)
    ensures i + 8 <= |s| ==> DecodeU64(s, i) == Parse(Success(BigEndian(s[i..i + 8])), i + 8)
    ensures i + 8 > |s| ==> DecodeU64(s, i) == Fail(EndOfFile, Max(i, |s|))
  {
    DecodeU32Spec(s, i);
    DecodeU32Spec(s, i + 4);
    if i + 8 <= |s| {
      assert s[i..i + 8] == s[i..i + 4] + s[i + 4..i + 8];
      BigEndianConcat(s[i..i + 4], s[i + 4..i + 8]);
      assert Pow256(4) == 0x1_0000_0000;
    }
  }

  lemma DecodeU16RoundTrip(s: seq<Byte>, i: nat, v: U16)
    requires i + 2 <= |s| && s[i..i + 2] == EncodeU16(v)
    ensures DecodeU16(s, i) == Parse(Success(v), i + 2)
  {
    DecodeU16Spec(s, i);
    EncodeU16Value(v);
  }

  lemma DecodeU32RoundTrip(s: seq<Byte>, i: nat, v: U32)
    requires i + 4 <= |s| && s[i..i + 4] == EncodeU32(v)
    ensures DecodeU32(s, i) == Parse(Success(v), i + 4)
  {
    DecodeU32Spec(s, i);
    EncodeU32Value(v);
  }

  /** What `writeU64` writes, `readU64` reads back from the same position. */
  lemma DecodeU64RoundTrip(s: seq<Byte>, i: nat, v: U64)
    requires i + 8 <= |s| && s[i..i + 8] == EncodeU64(v)
    ensures DecodeU64(s, i) == Parse(Success(v), i + 8)
  {
    DecodeU64Spec(s, i);
    EncodeU64Value(v);
  }

  lemma DecodeS8RoundTrip(s: seq<Byte>, i: nat, v: S8)
    requires i + 1 <= |s| && s[i..i + 1] == EncodeS8(v)
    ensures DecodeS8(s, i) == Parse(Success(v), i + 1)
  {
    assert s[i] == s[i..i + 1][0];
  }

  lemma DecodeS16RoundTrip(s: seq<Byte>, i: nat, v: S16)
    requires i + 2 <= |s| && s[i..i + 2] == EncodeS16(v)
    ensures DecodeS16(s, i) == Parse(Success(v), i + 2)
  {
    DecodeU16RoundTrip(s, i, Unsigned(v, 0x8000));
  }

  lemma DecodeS32RoundTrip(s: seq<Byte>, i: nat, v: S32)
    requires i + 4 <= |s| && s[i..i + 4] == EncodeS32(v)
    ensures DecodeS32(s, i) == Parse(Success(v), i + 4)
  {
    DecodeU32RoundTrip(s, i, Unsigned(v, 0x8000_0000));
  }

  lemma DecodeS64RoundTrip(s: seq<Byte>, i: nat, v: S64)
    requires i + 8 <= |s| && s[i..i + 8] == EncodeS64(v)
    ensures DecodeS64(s, i) == Parse(Success(v), i + 8)
  {
    DecodeU64RoundTrip(s, i, Unsigned(v, 0x8000_0000_0000_0000));
  }

  /** `readBool` gives back what `writeBool` wrote; on its own bytes it is `!= 0`. */
  lemma DecodeBoolRoundTrip(s: seq<Byte>, i: nat, b: bool)
    requires i + 1 <= |s| && s[i..i + 1] == EncodeBool(b)
    ensures DecodeBool(s, i) == Parse(Success(b), i + 1)
  {
    assert s[i] == s[i..i + 1][0];
  }

  /** A range-checked read succeeds exactly when the plain read does and the
      value lies in range; it never moves the offset differently. */
  lemma LimitedSpec(p: Parse<int>, min: int, max: int)
    ensures Limited(p, min, max).next == p.next
    ensures Limited(p, min, max).result.Success? <==>
              p.result.Success? && min <= p.result.value <= max
    ensures Limited(p, min, max).result.Success? ==> Limited(p, min, max).result == p.result
    ensures p.result.Success? && !(min <= p.result.value <= max) ==>
              Limited(p, min, max).result == Failure(InvalidDataValue)
  {
  }

  /** An enum written by `write<T>` reads back through `read<T>`. */
  lemma DecodeEnumRoundTrip(s: seq<Byte>, i: nat, first: Byte, last: Byte, value: Byte)
    requires first <= value <= last
    requires i + 1 <= |s| && s[i..i + 1] == EncodeEnumU8(value)
    ensures DecodeEnumU8(s, i, first, last) == Parse(Success(value), i + 1)
  {
    assert s[i] == s[i..i + 1][0];
  }

  // ---------------------------------------------------------------------------
  // Properties of the string codec

  /** The four 6-bit (and 3-bit) fields of the 4-byte form put back together
      give the character with the bits above 21 dropped. */
  lemma FourByteFields(ch: nat)
    ensures (((ch / 0x4_0000) % 0x8 * 0x40 + (ch / 0x1000) % 0x40) * 0x40 + (ch / 0x40) % 0x40) * 0x40
            + ch % 0x40 == ch % 0x20_0000
  {
    QuotientStep(ch, 0x1, 0x40);
    QuotientStep(ch, 0x40, 0x40);
    QuotientStep(ch, 0x1000, 0x40);
    QuotientStep(ch, 0x4_0000, 0x8);
  }

  /** Taking the quotient by `d * w` peels one base-`w` digit off the quotient by `d`. */
  lemma QuotientStep(n: nat, d: nat, w: nat)
    requires (d == 0x1 && w == 0x40) || (d == 0x40 && w == 0x40) || (d == 0x1000 && w == 0x40) || (d == 0x4_0000 && w == 0x8)
    ensures n / d == (n / (d * w)) * w + (n / d) % w
  {
    if d == 0x1 {
      assert n / 0x1 == n;
    } else if d == 0x40 {
      assert n / 0x40 / 0x40 == n / 0x1000;
    } else if d == 0x1000 {
      assert n / 0x1000 / 0x40 == n / 0x4_0000;
    } else {
      assert n / 0x4_0000 / 0x8 == n / 0x20_0000;
    }
  }

  /** Decoding what `EncodeChar(ch)` wrote at offset `i`: the character when
      it is below 0x10FFFF; for characters in 0x10FFFF up to 0x1FFFFF the
      4-byte form is rejected with UTFDataFormatException. */
  lemma DecodeEncodedChar(s: seq<Byte>, i: nat, ch: WChar)
    requires ch < 0x20_0000
    requires i + |EncodeChar(ch)| <= |s| && s[i..i + |EncodeChar(ch)|] == EncodeChar(ch)
    ensures Decodable(ch) ==> DecodeChar(s, i) == Parse(Success(Some(ch)), i + |EncodeChar(ch)|)
    ensures !Decodable(ch) ==> DecodeChar(s, i) == Fail(UTFDataFormat, i + 4)
  {
    var e := EncodeChar(ch);
    forall k | 0 <= k < |e|
      ensures s[i + k] == e[k]
    {
      assert s[i..i + |e|][k] == s[i + k];
    }
    if ch >= 0x1000 {
      DecodeFourBytes(s, i, ch);
    } else if ch >= 0x800 {
      DecodeThreeBytes(s, i, ch);
    } else if ch == 0 || ch >= 0x80 {
      DecodeTwoBytes(s, i, ch);
    }
  }

  lemma DecodeTwoBytes(s: seq<Byte>, i: nat, ch: WChar)
    requires ch < 0x800 && !(0 < ch < 0x80)
    requires i + 2 <= |s| && s[i] == EncodeChar(ch)[0] && s[i + 1] == EncodeChar(ch)[1]
    ensures DecodeChar(s, i) == Parse(Success(Some(ch)), i + 2)
  {
  }

  lemma DecodeThreeBytes(s: seq<Byte>, i: nat, ch: WChar)
    requires 0x800 <= ch < 0x1000
    requires i + 3 <= |s| && s[i] == EncodeChar(ch)[0] && s[i + 1] == EncodeChar(ch)[1]
    requires s[i + 2] == EncodeChar(ch)[2]
    ensures DecodeChar(s, i) == Parse(Success(Some(ch)), i + 3)
  {
    var e := EncodeChar(ch);
    assert ch / 0x40 == (ch / 0x1000) * 0x40 + (ch / 0x40) % 0x40;
    assert (e[0] as int - 0xE0) * 0x40 + (e[1] as int - 0x80) == ch / 0x40;
  }

  lemma DecodeFourBytes(s: seq<Byte>, i: nat, ch: WChar)
    requires 0x1000 <= ch < 0x20_0000
    requires i + 4 <= |s| && s[i] == EncodeChar(ch)[0] && s[i + 1] == EncodeChar(ch)[1]
    requires s[i + 2] == EncodeChar(ch)[2] && s[i + 3] == EncodeChar(ch)[3]
    ensures Decodable(ch) ==> DecodeChar(s, i) == Parse(Success(Some(ch)), i + 4)
    ensures !Decodable(ch) ==> DecodeChar(s, i) == Fail(UTFDataFormat, i + 4)
  {
    var e := EncodeChar(ch);
    assert 0xF0 <= e[0] < 0xF8;
    assert IsContinuation(e[1]) && IsContinuation(e[2]) && IsContinuation(e[3]);
    FourByteFields(ch);
    var v: int := (((e[0] as int - 0xF0) * 0x40 + (e[1] as int - 0x80)) * 0x40 + (e[2] as int - 0x80)) * 0x40
               + (e[3] as int - 0x80);
    assert v == ch;
  }

  lemma {:induction false} EncodeCharsAppend(a: seq<WChar>, b: seq<WChar>)
    ensures EncodeChars(a + b) == EncodeChars(a) + EncodeChars(b)
  {
    if a == [] {
      assert a + b == b;
    } else {
      assert (a + b)[1..] == a[1..] + b;
      EncodeCharsAppend(a[1..], b);
    }
  }

  lemma EncodeCharsSnoc(a: seq<WChar>, ch: WChar)
    ensures EncodeChars(a + [ch]) == EncodeChars(a) + EncodeChar(ch)
  {
    EncodeCharsAppend(a, [ch]);
    assert [ch][1..] == [];
  }

  /** NUL is written as two bytes, so no written character contains a 0 byte
      and the terminator is unambiguous. */
  lemma {:induction false} EncodeCharsNoZero(t: seq<WChar>)
    ensures forall k :: 0 <= k < |EncodeChars(t)| ==> EncodeChars(t)[k] != 0
  {
    if t != [] {
      EncodeCharsNoZero(t[1..]);
      var e := EncodeChar(t[0]);
      forall k | 0 <= k < |EncodeChars(t)|
        ensures EncodeChars(t)[k] != 0
      {
        if k >= |e| {
          assert EncodeChars(t)[k] == EncodeChars(t[1..])[k - |e|];
        }
      }
    }
  }

  /** The `readString` loop reads back a run of encoded characters and its terminator. */
  lemma {:induction false} DecodeEncodedChars(s: seq<Byte>, i: nat, t: seq<WChar>, acc: seq<WChar>)
    requires forall k :: 0 <= k < |t| ==> Decodable(t[k])
    requires i + |EncodeString(t)| <= |s| && s[i..i + |EncodeString(t)|] == EncodeString(t)
    ensures DecodeStringFrom(s, i, acc) == Parse(Success(acc + t), i + |EncodeString(t)|)
    decreases t
  {
    if t == [] {
      assert s[i] == s[i..i + 1][0];
      DecodeStringEnd(s, i, acc);
      assert acc + t == acc;
    } else {
      var j := DecodeFirstEncodedChar(s, i, t, acc);
      DecodeEncodedChars(s, j, t[1..], acc + [t[0]]);
      assert acc + [t[0]] + t[1..] == acc + t;
    }
  }

  /** One turn of the `readString` loop over an encoded string consumes its
      first character and leaves the encoding of the rest at `j`. */
  lemma DecodeFirstEncodedChar(s: seq<Byte>, i: nat, t: seq<WChar>, acc: seq<WChar>) returns (j: nat)
    requires t != [] && forall k :: 0 <= k < |t| ==> Decodable(t[k])
    requires i + |EncodeString(t)| <= |s| && s[i..i + |EncodeString(t)|] == EncodeString(t)
    ensures j + |EncodeString(t[1..])| == i + |EncodeString(t)|
    ensures s[j..j + |EncodeString(t[1..])|] == EncodeString(t[1..])
    ensures DecodeStringFrom(s, i, acc) == DecodeStringFrom(s, j, acc + [t[0]])
  {
    var e, rest := EncodeChar(t[0]), EncodeString(t[1..]);
    assert EncodeString(t) == e + rest;
    j := i + |e|;
    SplitSlice(s, i, e, rest);
    DecodeEncodedChar(s, i, t[0]);
    DecodeStringStep(s, i, acc, t[0], j);
  }

  /** A 0 byte at `i` ends the loop with what has been read so far. */
  lemma DecodeStringEnd(s: seq<Byte>, i: nat, acc: seq<WChar>)
    requires i < |s| && s[i] == 0
    ensures DecodeStringFrom(s, i, acc) == Parse(Success(acc), i + 1)
  {
  }

  /** A character read at `i` is appended and the loop goes on after it. */
  lemma DecodeStringStep(s: seq<Byte>, i: nat, acc: seq<WChar>, ch: WChar, j: nat)
    requires DecodeChar(s, i) == Parse(Success(Some(ch)), j)
    ensures DecodeStringFrom(s, i, acc) == DecodeStringFrom(s, j, acc + [ch])
  {
  }

  /** A slice holding `a + b` holds `a` and then `b`. */
  lemma SplitSlice(s: seq<Byte>, i: nat, a: seq<Byte>, b: seq<Byte>)
    requires i + |a + b| <= |s| && s[i..i + |a + b|] == a + b
    ensures s[i..i + |a|] == a && s[i + |a|..i + |a| + |b|] == b
  {
    assert s[i..i + |a|] == s[i..i + |a + b|][..|a|];
    assert s[i + |a|..i + |a| + |b|] == s[i..i + |a + b|][|a|..];
  }

  /** `readString` gives back what `writeString` wrote, whatever follows it,
      for every string whose characters lie below 0x10FFFF. */
  lemma StringRoundTrip(t: seq<WChar>, rest: seq<Byte>)
    requires forall k :: 0 <= k < |t| ==> Decodable(t[k])
    ensures DecodeString(EncodeString(t) + rest, 0) == Parse(Success(t), |EncodeString(t)|)
  {
    var s := EncodeString(t) + rest;
    assert s[0..|EncodeString(t)|] == EncodeString(t);
    DecodeEncodedChars(s, 0, t, []);
    assert [] + t == t;
  }

  /** A lead byte 10xxxxxx or 11111xxx is refused as soon as it is read. */
  lemma BadLeadByte(s: seq<Byte>, i: nat)
    requires i < |s| && (IsContinuation(s[i]) || s[i] >= 0xF8)
    ensures DecodeChar(s, i) == Fail(UTFDataFormat, i + 1)
  {
  }

  /** A multi-byte lead followed by a byte that is not 10xxxxxx is refused
      after that byte. */
  lemma BadContinuationByte(s: seq<Byte>, i: nat)
    requires i + 1 < |s| && 0xC0 <= s[i] < 0xF8 && !IsContinuation(s[i + 1])
    ensures DecodeChar(s, i) == Fail(UTFDataFormat, i + 2)
  {
  }

  /** U+10FFFF is written as F4 8F BF BF but refused when read back. */
  lemma MaxCodePointNotReadBack()
    ensures EncodeChar(0x10FFFF) == [0xF4, 0x8F, 0xBF, 0xBF]
    ensures DecodeString(EncodeString([0x10FFFF]), 0).result == Failure(UTFDataFormat)
  {
    assert EncodeString([0x10FFFF]) == [0xF4, 0x8F, 0xBF, 0xBF, 0];
  }

  /** Characters above 21 bits are written as the character with those bits
      dropped (when that is still a 4-byte character). */
  lemma EncodeCharDropsHighBits(ch: WChar)
    requires ch % 0x20_0000 >= 0x1000
    ensures EncodeChar(ch) == EncodeChar(ch % 0x20_0000)
  {
    var q, m := ch / 0x20_0000, ch % 0x20_0000;
    DropHighBits(q, m);
    assert ch == q * 0x20_0000 + m;
  }

  /** Each 4-byte field of `q * 2^21 + m` is the same field of `m`. */
  lemma {:induction false} DropHighBits(q: nat, m: nat)
    ensures ((q * 0x20_0000 + m) / 0x4_0000) % 0x8 == (m / 0x4_0000) % 0x8
    ensures ((q * 0x20_0000 + m) / 0x1000) % 0x40 == (m / 0x1000) % 0x40
    ensures ((q * 0x20_0000 + m) / 0x40) % 0x40 == (m / 0x40) % 0x40
    ensures (q * 0x20_0000 + m) % 0x40 == m % 0x40
  {
    if q > 0 {
      DropHighBits(q - 1, m + 0x20_0000);
      assert q * 0x20_0000 + m == (q - 1) * 0x20_0000 + (m + 0x20_0000);
      FieldsOfShiftedOnce(m);
    }
  }

  /** Adding 2^21 changes none of the 4-byte fields. */
  lemma FieldsOfShiftedOnce(m: nat)
    ensures ((m + 0x20_0000) / 0x4_0000) % 0x8 == (m / 0x4_0000) % 0x8
    ensures ((m + 0x20_0000) / 0x1000) % 0x40 == (m / 0x1000) % 0x40
    ensures ((m + 0x20_0000) / 0x40) % 0x40 == (m / 0x40) % 0x40
    ensures (m + 0x20_0000) % 0x40 == m % 0x40
  {
    ShiftedQuotient(m, 0x4_0000, 0x8);
    ShiftedQuotient(m, 0x1000, 0x200);
    ShiftedQuotient(m, 0x40, 0x8000);
    assert m + 0x20_0000 == (m / 0x40 + 0x8000) * 0x40 + m % 0x40;
  }

  /** Adding `k` multiples of `d` adds `k` to the quotient by `d`. */
  lemma ShiftedQuotient(m: nat, d: nat, k: nat)
    requires (d == 0x4_0000 && k == 0x8) || (d == 0x1000 && k == 0x200) || (d == 0x40 && k == 0x8000)
    ensures (m + 0x20_0000) / d == m / d + k
    ensures (m / d + k) % (if d == 0x4_0000 then 0x8 else 0x40) == (m / d) % (if d == 0x4_0000 then 0x8 else 0x40)
  {
    if d == 0x4_0000 {
      assert m + 0x20_0000 == (m / 0x4_0000 + 0x8) * 0x4_0000 + m % 0x4_0000;
    } else if d == 0x1000 {
      assert m + 0x20_0000 == (m / 0x1000 + 0x200) * 0x1000 + m % 0x1000;
    } else {
      assert m + 0x20_0000 == (m / 0x40 + 0x8000) * 0x40 + m % 0x40;
    }
  }
}
