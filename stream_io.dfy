/** The stateful side of the stream layer (include/stream/stream.h): a
    `Writer` that appends bytes, the `MemoryReader` cursor and its typed
    reads, and `StreamServerWrapper`. Each method is proved against the
    byte-level functions of module StreamCodec. */
module StreamIO {
  import opened Wrappers
  import opened StreamCodec

  /** A `Writer` whose `writeByte` appends to `bytes`. */
  class Writer {
    var bytes: seq<Byte>

    constructor ()
      ensures bytes == []
    {
      bytes := [];
    }

    method WriteByte(v: Byte)
      modifies this
      ensures bytes == old(bytes) + [v]
    {
      bytes := bytes + [v];
    }

    /** `writeBytes`: the bytes one at a time, in order. */
    method WriteBytes(a: seq<Byte>)
      modifies this
      ensures bytes == old(bytes) + a
    {
      var i := 0;
      while i < |a|
        invariant 0 <= i <= |a|
        invariant bytes == old(bytes) + a[..i]
      {
        WriteByte(a[i]);
        assert a[..i + 1] == a[..i] + [a[i]];
        i := i + 1;
      }
      assert a[..|a|] == a;
    }

    method WriteU8(v: Byte)
      modifies this
      ensures bytes == old(bytes) + EncodeU8(v)
    {
      WriteByte(v);
    }

    method WriteU16(v: U16)
      modifies this
      ensures bytes == old(bytes) + EncodeU16(v)
    {
      WriteU8(v / 0x100);
      WriteU8(v % 0x100);
    }

    method WriteU32(v: U32)
      modifies this
      ensures bytes == old(bytes) + EncodeU32(v)
    {
      WriteU16(v / 0x1_0000);
      WriteU16(v % 0x1_0000);
    }

    method WriteU64(v: U64)
      modifies this
      ensures bytes == old(bytes) + EncodeU64(v)
    {
      WriteU32(v / 0x1_0000_0000);
      WriteU32(v % 0x1_0000_0000);
    }

    method WriteS8(v: S8)
      modifies this
      ensures bytes == old(bytes) + EncodeS8(v)
    {
      WriteByte(Unsigned(v, 0x80));
    }

    method WriteS16(v: S16)
      modifies this
      ensures bytes == old(bytes) + EncodeS16(v)
    {
      WriteU16(Unsigned(v, 0x8000));
    }

    method WriteS32(v: S32)
      modifies this
      ensures bytes == old(bytes) + EncodeS32(v)
    {
      WriteU32(Unsigned(v, 0x8000_0000));
    }

    method WriteS64(v: S64)
      modifies this
      ensures bytes == old(bytes) + EncodeS64(v)
    {
      WriteU64(Unsigned(v, 0x8000_0000_0000_0000));
    }

    method WriteBool(v: bool)
      modifies this
      ensures bytes == old(bytes) + EncodeBool(v)
    {
      WriteU8(if v then 1 else 0);
    }

    /** The body of the `writeString` loop for one character. */
    method WriteChar(ch: WChar)
      modifies this
      ensures bytes == old(bytes) + EncodeChar(ch)
    {
      if ch != 0 && ch < 0x80 {
        WriteU8(ch);
      } else if ch < 0x800 {
        WriteU8(0xC0 + (ch / 0x40) % 0x20);
        WriteU8(0x80 + ch % 0x40);
      } else if ch < 0x1000 {
        WriteU8(0xE0 + (ch / 0x1000) % 0x10);
        WriteU8(0x80 + (ch / 0x40) % 0x40);
        WriteU8(0x80 + ch % 0x40);
      } else {
        WriteU8(0xF0 + (ch / 0x4_0000) % 0x8);
        WriteU8(0x80 + (ch / 0x1000) % 0x40);
        WriteU8(0x80 + (ch / 0x40) % 0x40);
        WriteU8(0x80 + ch % 0x40);
      }
    }

    /** `writeString`: each character in turn, then the 0 terminator. */
    method WriteString(v: seq<WChar>)
      modifies this
      ensures bytes == old(bytes) + EncodeString(v)
    {
      var i := 0;
      while i < |v|
        invariant 0 <= i <= |v|
        invariant bytes == old(bytes) + EncodeChars(v[..i])
      {
        WriteChar(v[i]);
        assert v[..i + 1] == v[..i] + [v[i]];
        EncodeCharsSnoc(v[..i], v[i]);
        i := i + 1;
      }
      assert v[..|v|] == v;
      WriteU8(0);
    }
  }

  /** `MemoryReader`: `length` bytes of `mem` read from `offset` on. */
  class MemoryReader {
    const mem: seq<Byte>
    const length: nat
    var offset: nat

    ghost predicate Valid()
      reads this
    {
      length <= |mem| && offset <= length
    }

    /** The bytes the reader serves. */
    function Input(): seq<Byte>
      requires length <= |mem|
    {
      mem[..length]
    }

    constructor (mem: seq<Byte>, length: nat)
      requires length <= |mem|
      ensures Valid() && this.mem == mem && this.length == length && offset == 0
    {
      this.mem := mem;
      this.length := length;
      offset := 0;
    }

    /** `readByte`: EOFException exactly when `offset >= length`, otherwise
        the byte at `offset`, which then moves on by one. */
    method ReadByte() returns (r: Result<Byte, IOError>)
      requires Valid()
      modifies this
      ensures Valid()
      ensures r.Failure? <==> old(offset) >= length
      ensures r.Failure? ==> r.error == EndOfFile && offset == old(offset)
      ensures r.Success? ==> r.value == mem[old(offset)] && offset == old(offset) + 1
      ensures DecodeU8(Input(), old(offset)) == Parse(r, offset)
    {
      if offset >= length {
        return Failure(EndOfFile);
      }
      r := Success(mem[offset]);
      offset := offset + 1;
    }

    method ReadU8() returns (r: Result<Byte, IOError>)
      requires Valid()
      modifies this
      ensures Valid() && DecodeU8(Input(), old(offset)) == Parse(r, offset)
    {
      r := ReadByte();
    }

    method ReadS8() returns (r: Result<S8, IOError>)
      requires Valid()
      modifies this
      ensures Valid() && DecodeS8(Input(), old(offset)) == Parse(r, offset)
    {
      var u := ReadByte();
      if u.Failure? {
        return Failure(u.error);
      }
      r := Success(Signed(u.value, 0x80));
    }

    method ReadU16() returns (r: Result<U16, IOError>)
      requires Valid()
      modifies this
      ensures Valid() && DecodeU16(Input(), old(offset)) == Parse(r, offset)
    {
      var hi := ReadU8();
      if hi.Failure? {
        return Failure(hi.error);
      }
      var lo := ReadU8();
      if lo.Failure? {
        return Failure(lo.error);
      }
      r := Success(hi.value as int * 0x100 + lo.value);
    }

    method ReadS16() returns (r: Result<S16, IOError>)
      requires Valid()
      modifies this
      ensures Valid() && DecodeS16(Input(), old(offset)) == Parse(r, offset)
    {
      var u := ReadU16();
      if u.Failure? {
        return Failure(u.error);
      }
      r := Success(Signed(u.value, 0x8000));
    }

    method ReadU32() returns (r: Result<U32, IOError>)
      requires Valid()
      modifies this
      ensures Valid() && DecodeU32(Input(), old(offset)) == Parse(r, offset)
    {
      var hi := ReadU16();
      if hi.Failure? {
        return Failure(hi.error);
      }
      var lo := ReadU16();
      if lo.Failure? {
        return Failure(lo.error);
      }
      r := Success(hi.value as int * 0x1_0000 + lo.value);
    }

    method ReadS32() returns (r: Result<S32, IOError>)
      requires Valid()
      modifies this
      ensures Valid() && DecodeS32(Input(), old(offset)) == Parse(r, offset)
    {
      var u := ReadU32();
      if u.Failure? {
        return Failure(u.error);
      }
      r := Success(Signed(u.value, 0x8000_0000));
    }

    method ReadU64() returns (r: Result<U64, IOError>)
      requires Valid()
      modifies this
      ensures Valid() && DecodeU64(Input(), old(offset)) == Parse(r, offset)
    {
      var hi := ReadU32();
      if hi.Failure? {
        return Failure(hi.error);
      }
      var lo := ReadU32();
      if lo.Failure? {
        return Failure(lo.error);
      }
      r := Success(hi.value as int * 0x1_0000_0000 + lo.value);
    }

    method ReadS64() returns (r: Result<S64, IOError>)
      requires Valid()
      modifies this
      ensures Valid() && DecodeS64(Input(), old(offset)) == Parse(r, offset)
    {
      var u := ReadU64();
      if u.Failure? {
        return Failure(u.error);
      }
      r := Success(Signed(u.value, 0x8000_0000_0000_0000));
    }

    method ReadBool() returns (r: Result<bool, IOError>)
      requires Valid()
      modifies this
      ensures Valid() && DecodeBool(Input(), old(offset)) == Parse(r, offset)
    {
      var u := ReadU8();
      if u.Failure? {
        return Failure(u.error);
      }
      r := Success(u.value != 0);
    }

    /** `readLimitedU8`. */
    method ReadLimitedU8(min: Byte, max: Byte) returns (r: Result<int, IOError>)
      requires Valid()
      modifies this
      ensures Valid() && Limited(DecodeU8(Input(), old(offset)), min, max) == Parse(r, offset)
    {
      var v := ReadU8();
      r := if v.Failure? then Failure(v.error) else LimitAfterRead(v.value, min, max);
    }

    /** `readLimitedS8`. */
    method ReadLimitedS8(min: S8, max: S8) returns (r: Result<int, IOError>)
      requires Valid()
      modifies this
      ensures Valid() && Limited(DecodeS8(Input(), old(offset)), min, max) == Parse(r, offset)
    {
      var v := ReadS8();
      r := if v.Failure? then Failure(v.error) else LimitAfterRead(v.value, min, max);
    }

    /** `readLimitedU16`. */
    method ReadLimitedU16(min: U16, max: U16) returns (r: Result<int, IOError>)
      requires Valid()
      modifies this
      ensures Valid() && Limited(DecodeU16(Input(), old(offset)), min, max) == Parse(r, offset)
    {
      var v := ReadU16();
      r := if v.Failure? then Failure(v.error) else LimitAfterRead(v.value, min, max);
    }

    /** `readLimitedS16`. */
    method ReadLimitedS16(min: S16, max: S16) returns (r: Result<int, IOError>)
      requires Valid()
      modifies this
      ensures Valid() && Limited(DecodeS16(Input(), old(offset)), min, max) == Parse(r, offset)
    {
      var v := ReadS16();
      r := if v.Failure? then Failure(v.error) else LimitAfterRead(v.value, min, max);
    }

    /** `readLimitedU32`. */
    method ReadLimitedU32(min: U32, max: U32) returns (r: Result<int, IOError>)
      requires Valid()
      modifies this
      ensures Valid() && Limited(DecodeU32(Input(), old(offset)), min, max) == Parse(r, offset)
    {
      var v := ReadU32();
      r := if v.Failure? then Failure(v.error) else LimitAfterRead(v.value, min, max);
    }

    /** `readLimitedS32`. */
    method ReadLimitedS32(min: S32, max: S32) returns (r: Result<int, IOError>)
      requires Valid()
      modifies this
      ensures Valid() && Limited(DecodeS32(Input(), old(offset)), min, max) == Parse(r, offset)
    {
      var v := ReadS32();
      r := if v.Failure? then Failure(v.error) else LimitAfterRead(v.value, min, max);
    }

    /** `readLimitedU64`. */
    method ReadLimitedU64(min: U64, max: U64) returns (r: Result<int, IOError>)
      requires Valid()
      modifies this
      ensures Valid() && Limited(DecodeU64(Input(), old(offset)), min, max) == Parse(r, offset)
    {
      var v := ReadU64();
      r := if v.Failure? then Failure(v.error) else LimitAfterRead(v.value, min, max);
    }

    /** `readLimitedS64`. */
    method ReadLimitedS64(min: S64, max: S64) returns (r: Result<int, IOError>)
      requires Valid()
      modifies this
      ensures Valid() && Limited(DecodeS64(Input(), old(offset)), min, max) == Parse(r, offset)
    {
      var v := ReadS64();
      r := if v.Failure? then Failure(v.error) else LimitAfterRead(v.value, min, max);
    }

    /** `read<T>` for a one-byte enum between `first` and `last`. */
    method ReadEnumU8(first: Byte, last: Byte) returns (r: Result<int, IOError>)
      requires Valid()
      modifies this
      ensures Valid() && DecodeEnumU8(Input(), old(offset), first, last) == Parse(r, offset)
    {
      r := ReadLimitedU8(first, last);
    }

    /** One character of the `readString` loop after its lead byte `b1`
        was read: the continuation bytes, in order, checked one by one. */
    method ReadChar() returns (r: Result<Option<WChar>, IOError>)
      requires Valid()
      modifies this
      ensures Valid() && DecodeChar(Input(), old(offset)) == Parse(r, offset)
    {
      var b1 := ReadU8();
      if b1.Failure? {
        return Failure(b1.error);
      }
      var c1 := b1.value;
      if c1 == 0 {
        return Success(None);
      } else if c1 < 0x80 {
        return Success(Some(c1));
      } else if 0xC0 <= c1 < 0xE0 {
        var b2 := ReadU8();
        if b2.Failure? {
          return Failure(b2.error);
        } else if !IsContinuation(b2.value) {
          return Failure(UTFDataFormat);
        }
        return Success(Some((c1 as int - 0xC0) * 0x40 + (b2.value as int - 0x80)));
      } else if 0xE0 <= c1 < 0xF0 {
        var b2 := ReadU8();
        if b2.Failure? {
          return Failure(b2.error);
        } else if !IsContinuation(b2.value) {
          return Failure(UTFDataFormat);
        }
        var b3 := ReadU8();
        if b3.Failure? {
          return Failure(b3.error);
        } else if !IsContinuation(b3.value) {
          return Failure(UTFDataFormat);
        }
        return Success(Some(((c1 as int - 0xE0) * 0x40 + (b2.value as int - 0x80)) * 0x40 + (b3.value as int - 0x80)));
      } else if 0xF0 <= c1 < 0xF8 {
        var b2 := ReadU8();
        if b2.Failure? {
          return Failure(b2.error);
        } else if !IsContinuation(b2.value) {
          return Failure(UTFDataFormat);
        }
        var b3 := ReadU8();
        if b3.Failure? {
          return Failure(b3.error);
        } else if !IsContinuation(b3.value) {
          return Failure(UTFDataFormat);
        }
        var b4 := ReadU8();
        if b4.Failure? {
          return Failure(b4.error);
        } else if !IsContinuation(b4.value) {
          return Failure(UTFDataFormat);
        }
        var v: int := (((c1 as int - 0xF0) * 0x40 + (b2.value as int - 0x80)) * 0x40
                       + (b3.value as int - 0x80)) * 0x40 + (b4.value as int - 0x80);
        if v >= 0x10FFFF {
          return Failure(UTFDataFormat);
        }
        return Success(Some(v));
      } else {
        return Failure(UTFDataFormat);
      }
    }

    /** `readString`: characters up to the 0 terminator, or the first exception. */
    method ReadString() returns (r: Result<seq<WChar>, IOError>)
      requires Valid()
      modifies this
      ensures Valid() && DecodeString(Input(), old(offset)) == Parse(r, offset)
    {
      var retval: seq<WChar> := [];
      while true
        invariant Valid()
        invariant DecodeStringFrom(Input(), offset, retval) == DecodeString(Input(), old(offset))
        decreases length - offset
      {
        var c := ReadChar();
        match c {
          case Failure(e) =>
            return Failure(e);
          case Success(None) =>
            return Success(retval);
          case Success(Some(ch)) =>
            retval := retval + [ch];
        }
      }
    }
  }

  /** `StreamServerWrapper`: hands out its own `streams` first, then
      delegates to `nextServer`. `S` stands for the stream handles. */
  class StreamServerWrapper<S> {
    var streams: seq<S>
    var nextServer: StreamServerWrapper?<S>
    ghost var Repr: set<object>

    ghost predicate Valid()
      reads this, Repr
      decreases Repr
    {
      this in Repr &&
      (nextServer != null ==>
         nextServer in Repr && nextServer.Repr <= Repr && this !in nextServer.Repr &&
         nextServer.Valid())
    }

    /** Every stream the chain will hand out, in order. */
    ghost function Pending(): seq<S>
      requires Valid()
      reads this, Repr
      decreases Repr
    {
      streams + if nextServer == null then [] else nextServer.Pending()
    }

    constructor (streams: seq<S>, nextServer: StreamServerWrapper?<S>)
      requires nextServer != null ==> nextServer.Valid()
      ensures Valid() && fresh(Repr - (if nextServer == null then {} else nextServer.Repr))
      ensures this.streams == streams && this.nextServer == nextServer
      ensures Pending() == streams + if nextServer == null then [] else nextServer.Pending()
    {
      this.streams := streams;
      this.nextServer := nextServer;
      Repr := {this} + if nextServer == null then {} else nextServer.Repr;
    }

    /** `accept`: the front stream, popped; when there is none, the next
        server's `accept`; NoStreamsLeftException at the end of the chain. */
    method Accept() returns (r: Result<S, IOError>)
      requires Valid()
      modifies Repr
      decreases Repr
      ensures Valid() && Repr == old(Repr)
      ensures old(streams) != [] ==> r == Success(old(streams)[0]) && streams == old(streams)[1..]
      ensures old(Pending()) == [] ==> r == Failure(NoStreamsLeft) && Pending() == []
      ensures old(Pending()) != [] ==> r == Success(old(Pending())[0]) && Pending() == old(Pending())[1..]
    {
      if streams == [] {
        if nextServer == null {
          return Failure(NoStreamsLeft);
        }
        r := nextServer.Accept();
        return;
      }
      r := Success(streams[0]);
      streams := streams[1..];
    }
  }
}
