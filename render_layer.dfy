/** The render layers and their one-byte codec (include/render/render_layer.h). */
module RenderLayers {
  import opened Wrappers
  import opened StreamCodec
  import opened StreamIO

  /** `RenderLayer`; `Last` is the count sentinel, not a drawable layer. */
  datatype RenderLayer = Opaque | Translucent | Last
  {
    /** The numeric value of the enumerator. */
    function Ord(): (n: Byte)
      ensures n <= 2
    {
      match this
      case Opaque => 0
      case Translucent => 1
      case Last => 2
    }
  }

  /** The layer with numeric value `n`. */
  function FromOrd(n: int): (rl: RenderLayer)
    requires 0 <= n <= 2
    ensures rl.Ord() == n
  {
    if n == 0 then Opaque else if n == 1 then Translucent else Last
  }

  /** The drawable layers in enumeration order, as iterating the enum
      from `Opaque` up to `Last` visits them. */
  const DrawLayers: seq<RenderLayer> := [Opaque, Translucent]

  /** `writeRenderLayer`: exactly one byte, the layer's numeric value. */
  function EncodeRenderLayer(rl: RenderLayer): (r: seq<Byte>)
    ensures r == [rl.Ord()]
  {
    EncodeU8(rl.Ord())
  }

  /** `readRenderLayer`: `readLimitedU8(0, Last)` cast to the enum. */
  function DecodeRenderLayer(s: seq<Byte>, i: nat): (p: Parse<RenderLayer>)
    ensures p.result.Success? <==> i < |s| && s[i] <= 2
    ensures p.result.Success? ==> p.result.value.Ord() == s[i] && p.next == i + 1
    ensures i < |s| && s[i] > 2 ==> p == Fail(InvalidDataValue, i + 1)
    ensures i >= |s| ==> p == Fail(EndOfFile, i)
  {
    var v := Limited(DecodeU8(s, i), 0, Last.Ord());
    if v.result.Failure? then Fail(v.result.error, v.next) else Parse(Success(FromOrd(v.result.value)), v.next)
  }

  /** Every layer, the `Last` sentinel included, reads back as written. */
  lemma RenderLayerRoundTrip(rl: RenderLayer, rest: seq<Byte>)
    ensures DecodeRenderLayer(EncodeRenderLayer(rl) + rest, 0) == Parse(Success(rl), 1)
  {
    var s := EncodeRenderLayer(rl) + rest;
    assert s[0] == rl.Ord();
    assert FromOrd(rl.Ord()) == rl;
  }

  method WriteRenderLayer(rl: RenderLayer, writer: Writer)
    modifies writer
    ensures writer.bytes == old(writer.bytes) + EncodeRenderLayer(rl)
  {
    writer.WriteU8(rl.Ord());
  }

  method ReadRenderLayer(reader: MemoryReader) returns (r: Result<RenderLayer, IOError>)
    requires reader.Valid()
    modifies reader
    ensures reader.Valid()
    ensures DecodeRenderLayer(reader.Input(), old(reader.offset)) == Parse(r, reader.offset)
  {
    var v := reader.ReadLimitedU8(0, Last.Ord());
    r := if v.Failure? then Failure(v.error) else Success(FromOrd(v.value));
  }
}
