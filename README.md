# Voxels 0.6 core, modelled in Dafny

This project models the core of the voxel game engine Voxels 0.6 and
proves properties of that model. The core covers these parts:

- **Binary stream layer** (`stream::Reader` / `stream::Writer`):
  - big-endian fixed-width integers;
  - booleans and range-checked ("limited") reads;
  - the modified UTF-8 string codec;
  - the in-memory reader;
  - the stream-server wrapper that hands out queued connections.
- **Variable set** (`VariableSet`): interns shared objects under 64-bit
  descriptors so that a stream sends each object once and afterwards by
  reference.
- **Small utilities:**
  - `limit` and `sgn`;
  - the world-seed hash `makeSeed`;
  - the enum iterator and `enum_traits`;
  - the double-buffered `CachedVariable`;
  - the `RenderLayer` enumeration and its codec.
- **Meshes:**
  - append in plain, transformed, colourised and colourised-transformed
    forms, with the image-compatibility rule;
  - clear, and the mesh wire format;
  - the renderer's depth-buffer switch.
- **Block rendering** (`render_object.h`):
  - face deltas;
  - the face-culling rule `needRenderFace`;
  - drawing a block with its six neighbours.
- **Render chunks:**
  - per-layer, per-sub-chunk mesh caches and their validity flags;
  - invalidating one block, or the whole chunk;
  - regenerating the draw meshes.
- **The render world:** the map from chunk base positions to chunks, with
  block lookup and update, chunk installation, neighbour invalidation, the
  choice of the nearest stale chunk to regenerate, and reading a world.
- **The physics core:**
  - **Data:** physics properties; box, cylinder and empty shapes.
  - **Double-buffered state:** the world's old/new variable-set index; each
    object's old and new slots; kinematic extrapolation under gravity; the
    averaging of proposed new states.
  - **`runToTime`:**
    - the support pass, where each object is supported by a static object or
      a supported object beneath it;
    - the purge of destroyed objects;
    - the set-up of new states.
  - **Tests:** the broad collision test and the support test.

Each module follows one header:

| module | source |
|---|---|
| `StreamCodec`, `StreamIO` | `stream/stream.h` |
| `Variables` | `util/variable_set.h` |
| `Util` | `util/util.h` |
| `EnumTraits` | `util/enum_traits.h` |
| `Cached` | `util/cached_variable.h` |
| `RenderLayers` | `render/render_layer.h` |
| `Meshes` | `render/mesh.h` |
| `Blocks`, `Chunks`, `World` | `render/render_object.h` |
| `Physics` | `physics/physics.h` |

Pure encoders and decoders are functions over byte sequences. Where a
decoder reads at an offset, the result is a `Parse` (a result plus the next
offset). The classes whose fields the source updates in place are Dafny
classes, and their methods are proved against those functions. These
classes are:

- `Writer`, `MemoryReader` and `StreamServerWrapper`;
- `VariableSet` and `CachedVariable`;
- `Mesh` and `Renderer`;
- `RenderObjectChunk` and `RenderObjectWorld`;
- `PhysicsWorld` and `PhysicsObject`.

Notes on the representation:

- **Bytes, integers and characters.** Bytes are integers in 0..255. Fixed
  widths are subset types of `int`. `wchar_t` is seen as a `uint32_t`.
- **Physics numbers** use `real`.
- **Shared pointers to immutable values** become addresses (`Addr`) or
  `Option` values.
- **`PhysicsObject` slots.** `position[2]`, `velocity[2]` and
  `objectTime[2]` are value members of the object, so they are
  two-element `seq` fields, reassigned slot by slot.

The `PhysicsObject` constructor (`physics/physics.h:385-396`) stores its
extents unchecked, and so does `Physics.PhysicsObject.constructor`.

## Model

| member | source | states |
|---|---|---|
| `StreamCodec.EncodeU16` | include/stream/stream.h:360-364 | a `uint16_t` is written as exactly two bytes |
| `StreamCodec.EncodeU32` | include/stream/stream.h:369-373 | a `uint32_t` is written as exactly four bytes |
| `StreamCodec.EncodeU64` | include/stream/stream.h:378-382 | a `uint64_t` is written as exactly eight bytes |
| `StreamCodec.EncodeU16Value` | include/stream/stream.h:360-364 | the two bytes read as a big-endian number give back the value |
| `StreamCodec.EncodeU32Value` | include/stream/stream.h:369-373 | the four bytes, read big-endian, give back the value |
| `StreamCodec.EncodeU64Value` | include/stream/stream.h:378-382 | the eight bytes, read big-endian, give back the value |
| `StreamCodec.Signed` | include/stream/stream.h:137-142 | reinterpreting an unsigned value as two's complement gives a value in the signed range, equal to it or to it minus 2^n |
| `StreamCodec.Unsigned` | include/stream/stream.h:356-359 | a signed value cast to unsigned lies in the unsigned range and is the value itself or the value plus 2^n |
| `StreamCodec.SignedUnsigned` | include/stream/stream.h:374-377 | casting a signed value to unsigned and back gives it back |
| `StreamCodec.DecodeU16Spec` | include/stream/stream.h:143-149 | `readU16` gives the big-endian value of the next two bytes and advances by two, or EOF when fewer than two remain |
| `StreamCodec.DecodeU32Spec` | include/stream/stream.h:156-162 | `readU32` gives the big-endian value of the next four bytes, or EOF when fewer remain |
| `StreamCodec.DecodeU64Spec` | include/stream/stream.h:169-175 | `readU64` gives the big-endian value of the next eight bytes, or EOF when fewer remain |
| `StreamCodec.DecodeU16RoundTrip` | include/stream/stream.h:143-149 | reading back what `writeU16` wrote gives the value and consumes two bytes |
| `StreamCodec.DecodeU32RoundTrip` | include/stream/stream.h:156-162 | reading back what `writeU32` wrote gives the value and consumes four bytes |
| `StreamCodec.DecodeU64RoundTrip` | include/stream/stream.h:169-175 | reading back what `writeU64` wrote gives the value and consumes eight bytes |
| `StreamCodec.DecodeS8RoundTrip` | include/stream/stream.h:137-142 | `readS8` after `writeS8` gives back the signed value |
| `StreamCodec.DecodeS16RoundTrip` | include/stream/stream.h:150-155 | `readS16` after `writeS16` gives back the signed value |
| `StreamCodec.DecodeS32RoundTrip` | include/stream/stream.h:163-168 | `readS32` after `writeS32` gives back the signed value |
| `StreamCodec.DecodeS64RoundTrip` | include/stream/stream.h:176-181 | `readS64` after `writeS64` gives back the signed value |
| `StreamCodec.DecodeBoolRoundTrip` | include/stream/stream.h:208-211 | `readBool` after `writeBool` gives back the boolean |
| `StreamCodec.LimitedSpec` | include/stream/stream.h:105-113 | a limited read succeeds exactly when the plain read succeeds with a value inside [min, max], returns that value and consumes the same bytes; an out-of-range value is an InvalidDataValueException |
| `StreamCodec.DecodeEnumRoundTrip` | include/stream/stream.h:601-611 | an enumerator written as a byte reads back when it lies between the first and last enumerators |
| `StreamCodec.EncodeChar` | include/stream/stream.h:417-439 | a character is 1 to 4 bytes, never starting with 0; 1 byte exactly for 1..0x7F, 2 for 0 and 0x80..0x7FF, 3 for 0x800..0xFFF, 4 from 0x1000; every byte after the first is a continuation byte |
| `StreamCodec.DecodeChar` | include/stream/stream.h:212-271 | a successful character read consumes at least one byte and stays inside the input; any character it yields is one the reader accepts |
| `StreamCodec.DecodeEncodedChar` | include/stream/stream.h:212-271 | a character below 2^21 written by `writeString` reads back as itself when the reader accepts it, and is a UTFDataFormatException otherwise |
| `StreamCodec.DecodeTwoBytes` | include/stream/stream.h:227-235 | the two-byte form reads back as the character |
| `StreamCodec.DecodeThreeBytes` | include/stream/stream.h:236-248 | the three-byte form reads back as the character |
| `StreamCodec.DecodeFourBytes` | include/stream/stream.h:249-267 | the four-byte form reads back as the character, or is rejected for characters at or above 0x10FFFF |
| `StreamCodec.EncodeCharsAppend` | include/stream/stream.h:413-442 | encoding a concatenation is the concatenation of the encodings |
| `StreamCodec.EncodeCharsNoZero` | include/stream/stream.h:413-442 | no encoded character contains a zero byte, so the terminator is unambiguous |
| `StreamCodec.DecodeEncodedChars` | include/stream/stream.h:212-271 | reading the encoding of accepted characters appends exactly them to what was read so far and stops at the terminator |
| `StreamCodec.StringRoundTrip` | include/stream/stream.h:212-271 | `readString` after `writeString` gives back a string of accepted characters and consumes exactly its encoding |
| `StreamCodec.BadLeadByte` | include/stream/stream.h:212-271 | a continuation byte or a byte from 0xF8 in lead position is a UTFDataFormatException after one byte |
| `StreamCodec.BadContinuationByte` | include/stream/stream.h:227-259 | a multi-byte lead followed by a non-continuation byte is a UTFDataFormatException |
| `StreamCodec.MaxCodePointNotReadBack` | include/stream/stream.h:260-265 | U+10FFFF is written as F4 8F BF BF but not read back: the reader refuses it |
| `StreamCodec.EncodeCharDropsHighBits` | include/stream/stream.h:433-439 | in the four-byte form, bits above 21 of a wide character are dropped |
| `StreamIO.Writer.WriteBytes` | include/stream/stream.h:347-351 | the bytes are appended in order |
| `StreamIO.Writer.WriteU8` | include/stream/stream.h:352-355 | the stream grows by the byte |
| `StreamIO.Writer.WriteU16` | include/stream/stream.h:360-364 | the stream grows by the two-byte big-endian encoding |
| `StreamIO.Writer.WriteU32` | include/stream/stream.h:369-373 | the stream grows by the four-byte encoding |
| `StreamIO.Writer.WriteU64` | include/stream/stream.h:378-382 | the stream grows by the eight-byte encoding |
| `StreamIO.Writer.WriteS8` | include/stream/stream.h:356-359 | the stream grows by the two's-complement byte |
| `StreamIO.Writer.WriteS16` | include/stream/stream.h:365-368 | the stream grows by the two's-complement encoding |
| `StreamIO.Writer.WriteS32` | include/stream/stream.h:374-377 | the stream grows by the two's-complement encoding |
| `StreamIO.Writer.WriteS64` | include/stream/stream.h:383-386 | the stream grows by the two's-complement encoding |
| `StreamIO.Writer.WriteBool` | include/stream/stream.h:409-412 | the stream grows by one byte, 1 for true and 0 for false |
| `StreamIO.Writer.WriteChar` | include/stream/stream.h:417-439 | the stream grows by one character's encoding |
| `StreamIO.Writer.WriteString` | include/stream/stream.h:413-442 | the stream grows by the characters' encodings and a zero terminator |
| `StreamIO.MemoryReader.constructor` | include/stream/stream.h:687-690 | the reader starts at offset 0 over the given memory and length |
| `StreamIO.MemoryReader.ReadByte` | include/stream/stream.h:696-701 | EOF with the offset unchanged when the offset has reached the length; otherwise the byte at the offset, and the offset moves on by one |
| `StreamIO.MemoryReader.ReadU8` | include/stream/stream.h:131-136 | the result and the new offset are those of the byte-level decoder |
| `StreamIO.MemoryReader.ReadS8` | include/stream/stream.h:137-142 | agrees with the byte-level decoder |
| `StreamIO.MemoryReader.ReadU16` | include/stream/stream.h:143-149 | agrees with the byte-level decoder, EOF included |
| `StreamIO.MemoryReader.ReadS16` | include/stream/stream.h:150-155 | agrees with the byte-level decoder |
| `StreamIO.MemoryReader.ReadU32` | include/stream/stream.h:156-162 | agrees with the byte-level decoder |
| `StreamIO.MemoryReader.ReadS32` | include/stream/stream.h:163-168 | agrees with the byte-level decoder |
| `StreamIO.MemoryReader.ReadU64` | include/stream/stream.h:169-175 | agrees with the byte-level decoder |
| `StreamIO.MemoryReader.ReadS64` | include/stream/stream.h:176-181 | agrees with the byte-level decoder |
| `StreamIO.MemoryReader.ReadBool` | include/stream/stream.h:208-211 | agrees with the byte-level decoder: any non-zero byte is true |
| `StreamIO.MemoryReader.ReadLimitedU8` | include/stream/stream.h:272-275 | agrees with the range-checked decoder |
| `StreamIO.MemoryReader.ReadLimitedS8` | include/stream/stream.h:276-279 | agrees with the range-checked decoder |
| `StreamIO.MemoryReader.ReadLimitedU16` | include/stream/stream.h:280-283 | agrees with the range-checked decoder |
| `StreamIO.MemoryReader.ReadLimitedS16` | include/stream/stream.h:284-287 | agrees with the range-checked decoder |
| `StreamIO.MemoryReader.ReadLimitedU32` | include/stream/stream.h:288-291 | agrees with the range-checked decoder |
| `StreamIO.MemoryReader.ReadLimitedS32` | include/stream/stream.h:292-295 | agrees with the range-checked decoder |
| `StreamIO.MemoryReader.ReadLimitedU64` | include/stream/stream.h:296-299 | agrees with the range-checked decoder |
| `StreamIO.MemoryReader.ReadLimitedS64` | include/stream/stream.h:300-303 | agrees with the range-checked decoder |
| `StreamIO.MemoryReader.ReadEnumU8` | include/stream/stream.h:601-611 | agrees with the enumerator decoder: a byte limited to [first, last] |
| `StreamIO.MemoryReader.ReadChar` | include/stream/stream.h:212-271 | one pass of the `readString` loop agrees with the character decoder |
| `StreamIO.MemoryReader.ReadString` | include/stream/stream.h:212-271 | the loop agrees with the string decoder, errors and final offset included |
| `StreamIO.StreamServerWrapper.constructor` | include/stream/stream.h:835-838 | the pending connections are the wrapper's own queue followed by those of the next server |
| `StreamIO.StreamServerWrapper.Accept` | include/stream/stream.h:839-851 | the wrapper's own queue is served first; with nothing pending anywhere the result is NoStreamsLeftException; otherwise the first pending connection is returned and removed |
| `Variables.NextIndex` | include/util/variable_set.h:19-23 | the counter goes up by one, wrapping to 0 only after 2^64-1 |
| `Variables.IndexSource.MakeIndex` | include/util/variable_set.h:19-23 | the counter is pre-incremented and the new value returned, at least 1 before wrap-around |
| `Variables.MakeIndexStrictlyIncreasing` | include/util/variable_set.h:19-23 | k calls after `first` give `first + k`, never 0, as long as no wrap-around happens |
| `Variables.SetEntry` | include/util/variable_set.h:95-117 | the result says whether the slot was occupied; the slot then holds the value and no other slot changes; the old value's reverse entry is dropped; a stored value is found again under its descriptor; consistency of the two maps is kept |
| `Variables.FindEntry` | include/util/variable_set.h:118-131 | the null descriptor for null, unknown or expired values, with an expired entry erased; otherwise a descriptor whose slot holds the value |
| `Variables.FindOrMakeEntry` | include/util/variable_set.h:132-144 | a known value keeps its descriptor; an unknown one is stored under the fresh index; afterwards the value is found under the returned descriptor, and `known` is true exactly when it was already there |
| `Variables.VariableSet.Set` | include/util/variable_set.h:95-117 | the object's tables and result are those of `SetEntry` |
| `Variables.VariableSet.Find` | include/util/variable_set.h:118-131 | the object's tables and result are those of `FindEntry` |
| `Variables.VariableSet.FindOrMake` | include/util/variable_set.h:132-144 | the tables, descriptor and flag are those of `FindOrMakeEntry`, drawing a fresh index only for an unknown value |
| `Variables.WriteDescriptor` | include/util/variable_set.h:74-77 | a descriptor is written as its index, eight bytes big-endian |
| `Variables.ReadDescriptor` | include/util/variable_set.h:70-73 | a descriptor is read as a `uint64_t` index |
| `Variables.DescriptorRoundTrip` | include/util/variable_set.h:70-77 | reading a written descriptor gives back its index |
| `Variables.EncodeRef` | include/util/variable_set.h:162-178 | a non-null reference is the descriptor, then a flag byte that is 0 exactly when the object is known and unmodified, then the object's bytes unless the flag is 0 |
| `Variables.EncodeRefWith` | include/util/variable_set.h:162-178 | null writes the null descriptor and changes nothing; otherwise the descriptor written is the one under which the value is found afterwards |
| `Variables.WriteRef` | include/util/variable_set.h:162-178 | the writer, tables and counter change exactly as the reference encoding says |
| `Variables.ReadRef` | include/util/variable_set.h:147-160 | the reader, tables and result are those of the `read` decoder as written |
| `Variables.AsWrittenReadDropsReference` | include/util/variable_set.h:62-65 | with the inverted `operator!`, reading any non-null reference yields null after consuming only the descriptor |
| `Variables.AsWrittenReadOfNullConsumesFlag` | include/util/variable_set.h:147-160 | with the inverted `operator!`, reading a null reference goes on to consume a flag byte that was never written |
| `Variables.IntendedReadOfNull` | include/util/variable_set.h:147-152 | with the test the right way round, a null descriptor reads as null and consumes eight bytes |
| `Variables.IntendedReadRoundTrip` | include/util/variable_set.h:147-178 | with the test the right way round, reading what `write` emitted gives back the object, both from the tables and from the stream |
| `Util.Limit` | include/util/util.h:31-45 | the value clamped into [min, max]: unchanged inside, `max` above, `min` below |
| `Util.LimitIdempotent` | include/util/util.h:31-45 | clamping twice is clamping once |
| `Util.Sgn` | include/util/util.h:57-71 | -1, 0 or 1 exactly when the value is negative, zero or positive |
| `Util.SeedFoldIsHornerModulo` | include/util/util.h:127-135 | the 32-bit wrapping fold `seed * 9 + ch` equals the exact Horner value with base 9 taken modulo 2^32 |
| `Util.MakeSeed` | include/util/util.h:120-136 | an empty string gives the drawn random seed; otherwise the Horner hash with base 9 modulo 2^32 |
| `EnumTraits.EnumIterator.Plus` | include/util/enum_traits.h:32-35 | `it + b` lies b steps after `it`, and `- b` undoes it |
| `EnumTraits.EnumIterator.Minus` | include/util/enum_traits.h:36-39 | `it - b` lies b steps before `it` |
| `EnumTraits.EnumIterator.At` | include/util/enum_traits.h:44-47 | `it[b]` is the enumerator of `it + b` |
| `EnumTraits.EnumIterator.PreIncrement` | include/util/enum_traits.h:58-62 | `++it` moves one step forward |
| `EnumTraits.EnumIterator.PreDecrement` | include/util/enum_traits.h:63-67 | `--it` moves one step back |
| `EnumTraits.EnumIterator.PostIncrement` | include/util/enum_traits.h:68-71 | `it++` updates like `++it` and returns the old iterator |
| `EnumTraits.EnumIterator.PostDecrement` | include/util/enum_traits.h:72-75 | `it--` updates like `--it` and returns the old iterator |
| `EnumTraits.EnumIterator.AddAssign` | include/util/enum_traits.h:48-52 | `+=` gives the iterator of `+` |
| `EnumTraits.EnumIterator.SubAssign` | include/util/enum_traits.h:53-57 | `-=` gives the iterator of `-` |
| `EnumTraits.PlusLeft` | include/util/enum_traits.h:28-31 | `a + it` equals `it + a` |
| `EnumTraits.ComparisonsFollowDistance` | include/util/enum_traits.h:76-99 | `<`, `<=`, `>`, `>=` and `==` agree with the sign of the distance between iterators |
| `EnumTraits.EnumRange.Begin` | include/util/enum_traits.h:109-112 | `begin()` yields the minimum |
| `EnumTraits.EnumRange.End` | include/util/enum_traits.h:113-116 | `end()` is one past the maximum |
| `EnumTraits.EnumRange.Size` | include/util/enum_traits.h:117-120 | `size()` is maximum - minimum + 1 |
| `EnumTraits.EnumRange.Values` | include/util/enum_traits.h:109-120 | a range-`for` visits `size()` enumerators, the k-th being `begin()[k]` |
| `Cached.CellState.FinishWrite` | include/util/cached_variable.h:25-28 | readers now see the slot that was being written, and the writer gets the other; slots unchanged |
| `Cached.CellState.StorePending` | include/util/cached_variable.h:21-24 | a store through `writeRef()` changes the pending slot and not what readers see |
| `Cached.CellState.Write` | include/util/cached_variable.h:29-33 | after `write(v)` readers see v, and the old visible value becomes the pending slot |
| `Cached.FinishWriteTwice` | include/util/cached_variable.h:25-28 | two `finishWrite()` calls cancel out |
| `Cached.StoreInvisibleUntilFinish` | include/util/cached_variable.h:21-28 | a store through `writeRef()` is invisible until `finishWrite()`, after which it is what readers see |
| `Cached.CachedVariable.constructor` | include/util/cached_variable.h:13-16 | both slots hold the initial value and readers see slot 0 |
| `Cached.CachedVariable.Read` | include/util/cached_variable.h:17-20 | returns the visible slot |
| `Cached.CachedVariable.WriteRef` | include/util/cached_variable.h:21-24 | returns the pending slot |
| `Cached.CachedVariable.StoreThroughWriteRef` | include/util/cached_variable.h:21-24 | the cell's state becomes `StorePending(v)` |
| `Cached.CachedVariable.FinishWrite` | include/util/cached_variable.h:25-28 | the cell's state becomes `FinishWrite()` of the old one |
| `Cached.CachedVariable.Write` | include/util/cached_variable.h:29-33 | the cell's state becomes `Write(v)` of the old one |
| `RenderLayers.Ord` | include/render/render_layer.h:26-31 | the enumerators are numbered 0, 1, 2 in declaration order |
| `RenderLayers.FromOrd` | include/render/render_layer.h:26-31 | the inverse of the numbering |
| `RenderLayers.EncodeRenderLayer` | include/render/render_layer.h:33-36 | a layer is written as the single byte of its number |
| `RenderLayers.DecodeRenderLayer` | include/render/render_layer.h:38-41 | a byte from 0 to 2 reads as that layer, `Last` included; a larger byte is an InvalidDataValueException |
| `RenderLayers.RenderLayerRoundTrip` | include/render/render_layer.h:33-41 | reading a written layer gives it back |
| `RenderLayers.WriteRenderLayer` | include/render/render_layer.h:33-36 | the stream grows by the layer's byte |
| `RenderLayers.ReadRenderLayer` | include/render/render_layer.h:38-41 | agrees with the layer decoder |
| `Meshes.AdoptImage` | include/render/mesh.h:133-135 | the appended mesh's image wins when it has one; the mesh has no image only when neither did |
| `Meshes.Appended` | include/render/mesh.h:131-137 | the triangles are the old ones followed by the appended ones, and the image stays compatible with both |
| `Meshes.TransformedCopy` | include/render/mesh.h:92-100 | same image and count; every triangle transformed |
| `Meshes.ColorizedCopy` | include/render/mesh.h:101-109 | same image and count; every triangle colourised |
| `Meshes.ColorizedTransformedCopy` | include/render/mesh.h:110-118 | same image and count; each triangle transformed then colourised, which equals colourising the transformed copy |
| `Meshes.Mesh.constructor` | include/render/mesh.h:84-87 | the mesh holds the given triangles and image |
| `Meshes.Mesh.Append` | include/render/mesh.h:131-137 | under the image-compatibility assertion, the mesh becomes `Appended` of the old mesh and the argument |
| `Meshes.Mesh.AppendMapped` | include/render/mesh.h:143-147 | the triangles grow by the mapped triangles, in order; the image is unchanged |
| `Meshes.Mesh.AppendTransformed` | include/render/mesh.h:138-148 | the mesh becomes the old mesh with the transformed copy appended |
| `Meshes.Mesh.AppendColorized` | include/render/mesh.h:149-159 | the mesh becomes the old mesh with the colourised copy appended |
| `Meshes.Mesh.AppendColorizedTransformed` | include/render/mesh.h:160-170 | the mesh becomes the old mesh with the colourised, transformed copy appended |
| `Meshes.Mesh.AppendTriangle` | include/render/mesh.h:175-178 | one triangle is added at the end; the image is unchanged |
| `Meshes.Mesh.Clear` | include/render/mesh.h:191-195 | no triangles and no image |
| `Meshes.Mesh.Write` | include/render/mesh.h:208-218 | the stream grows by the triangle count, each triangle's encoding in order, then the image as a variable-set reference |
| `Meshes.EncodeTrianglesSnoc` | include/render/mesh.h:213-216 | encoding one more triangle appends its encoding |
| `Meshes.DecodeEncodedTriangles` | include/render/mesh.h:198-204 | reading back written triangles gives them all, in order, and consumes exactly their encodings |
| `Meshes.MeshTrianglesRoundTrip` | include/render/mesh.h:196-218 | `read` after `write` gives back the triangles in number and order; what follows is the image reference, read as the variable set's `read` does |
| `Meshes.ReadMesh` | include/render/mesh.h:196-207 | the reader, tables and result agree with the mesh decoder, errors included |
| `Meshes.Renderer.constructor` | include/render/mesh.h:317 | the depth buffer starts enabled |
| `Meshes.Renderer.EnableDepthBuffer` | include/render/mesh.h:338-342 | the depth buffer is enabled |
| `Meshes.Renderer.DisableDepthBuffer` | include/render/mesh.h:343-347 | the depth buffer is disabled |
| `Meshes.Renderer.SelectLayer` | include/render/mesh.h:348-361 | the depth buffer is on exactly for the opaque layer |
| `Blocks.DX` | include/render/render_object.h:31-34 | -1 exactly for NX, 1 exactly for PX, 0 otherwise |
| `Blocks.DY` | include/render/render_object.h:36-39 | -1 exactly for NY, 1 exactly for PY, 0 otherwise |
| `Blocks.DZ` | include/render/render_object.h:41-44 | -1 exactly for NZ, 1 exactly for PZ, 0 otherwise |
| `Blocks.DeltaIsUnit` | include/render/render_object.h:31-49 | every face delta is a unit step along exactly one axis |
| `Blocks.DeltaOpposite` | include/render/render_object.h:20-49 | the opposite face has the negated delta |
| `Blocks.DeltaInjective` | include/render/render_object.h:31-49 | two faces have the same delta exactly when they are the same face |
| `Blocks.ChunkBase` | include/render/render_object.h:631-639 | the chunk base is in the same dimension, lies on the chunk grid and is at most a chunk's size below the position on each axis |
| `Blocks.ChunkRelative` | include/render/render_object.h:637-638 | the relative position is inside the chunk and, added to the base, gives the position back |
| `Blocks.ChunkBaseIdempotent` | include/render/render_object.h:703-707 | a chunk base is its own base, and a position is a chunk base exactly when it is its own base |
| `Blocks.ChunkBaseOfMember` | include/render/render_object.h:631-639 | every position inside a chunk has that chunk's base and its own offset as relative position |
| `Blocks.NeedRenderFaceSpec` | include/render/render_object.h:62-73 | a face is drawn exactly when both blocks exist, their draw classes differ and the side block does not block that face |
| `Blocks.SameClassCulled` | include/render/render_object.h:62-73 | the shared face of two blocks of the same draw class is drawn from neither side |
| `Blocks.RenderedFace` | include/render/render_object.h:74-78 | nothing is added when the face is culled; otherwise the face mesh, translated to the block, is appended |
| `Blocks.RenderedFacesTriangles` | include/render/render_object.h:221-226 | the six faces add their triangles in the order NX, PX, NY, PY, NZ, PZ |
| `Blocks.DrawnBlockTriangles` | include/render/render_object.h:216-227 | a missing block, or one in another layer, adds nothing; otherwise the centre mesh comes first, then the visible faces |
| `Blocks.AppendedUsesImage` | include/render/mesh.h:131-137 | meshes that use one texture atlas can always be appended, and the result uses it too |
| `Blocks.BlockDrawUsesImage` | include/render/render_object.h:216-227 | a block all of whose meshes use one image draws only meshes that use it |
| `Blocks.RenderedFacesUsesImage` | include/render/render_object.h:221-226 | appending faces never breaks the image-compatibility assertion when each face that is not culled uses the destination's image or none |
| `Blocks.DrawnBlockUsesImage` | include/render/render_object.h:216-227 | drawing a block never breaks the image-compatibility assertion when the meshes it actually appends use the destination's image or none |
| `Blocks.DrawBlock` | include/render/render_object.h:216-227 | the mesh becomes the drawn block; the image assertion is required only of an existing block in the drawn layer, for its center and its faces that are not culled, and holds throughout |
| `Blocks.RenderFace` | include/render/render_object.h:74-78 | the mesh becomes the rendered face; the image assertion is required only when the face is drawn |
| `Chunks.CellIndex` | include/render/render_object.h:380-381 | the sub-chunk coordinates index a slot inside the per-layer arrays |
| `Chunks.CellIndexInjective` | include/render/render_object.h:380-381 | distinct sub-chunks have distinct slots |
| `Chunks.SubChunkOf` | include/render/render_object.h:366-370 | the block's relative position shifted right by 2 gives the slot of its sub-chunk |
| `Chunks.ClearSubChunk` | include/render/render_object.h:369-370 | invalidating one block clears exactly the flag of its own sub-chunk |
| `Chunks.Wrap` | include/render/render_object.h:394-399 | an index one step outside the chunk wraps to the far edge; inside, it is unchanged |
| `Chunks.RenderObjectChunk.constructor` | include/render/render_object.h:300-316 | every block is empty, every flag cleared and every cached mesh empty |
| `Chunks.RenderObjectChunk.InvalidateMeshes` | include/render/render_object.h:334-350 | every flag is cleared and no mesh changes |
| `Chunks.RenderObjectChunk.InvalidateMeshesAt` | include/render/render_object.h:356-371 | the draw-mesh and cached-mesh flags are cleared, and in each layer only the sub-chunk of the position |
| `Chunks.RenderObjectChunk.SideBlockLookup` | include/render/render_object.h:393-398 | a neighbour inside the chunk is read from the chunk; one outside is read at the wrapped index of the neighbour chunk, or is empty when there is no such chunk |
| `Chunks.RenderObjectChunk.DrawSubChunk` | include/render/render_object.h:384-402 | the sub-chunk mesh is every block of the 4x4x4 box drawn in x, y, z order with its six neighbours |
| `Chunks.RenderObjectChunk.BoxDrawnUsesImage` | include/render/render_object.h:385-403 | drawing a sub-chunk never breaks the image-compatibility assertion of `append` |
| `Chunks.RenderObjectChunk.GenerateSubChunkDrawMeshes` | include/render/render_object.h:378-405 | a valid sub-chunk gives its cached mesh; a stale one is rebuilt and stored; in both cases only that slot changes, and it is flagged valid |
| `Chunks.RenderObjectChunk.RebuiltUnique` | include/render/render_object.h:385-403 | the rebuilt meshes are determined by the blocks and the neighbours |
| `Chunks.RenderObjectChunk.BuildLayerMesh` | include/render/render_object.h:416-426 | the layer mesh is the concatenation, over every sub-chunk in x, y, z order, of the cached or rebuilt mesh; every sub-chunk ends up valid |
| `Chunks.RenderObjectChunk.RegenerateLayer` | include/render/render_object.h:413-428 | the layer's draw mesh is written and published; its cached mesh is marked stale; the other layers are untouched |
| `Chunks.RegenPrefixUsesImage` | include/render/render_object.h:413-426 | when every cached and rebuilt sub-chunk mesh uses one image or none, each `append` of the layer loops keeps the image assertion |
| `Chunks.RenderObjectChunk.GenerateDrawMeshes` | include/render/render_object.h:407-431 | `false` with nothing changed when the meshes are valid; otherwise `true`, and every layer's published draw mesh is the regenerated layer mesh |
| `World.ClearedByAllSpec` | include/render/render_object.h:618-629 | after invalidating a list of positions, a sub-chunk flag of a chunk stays set exactly when no position lies in that sub-chunk of that chunk |
| `World.ChunksClearedBySpec` | include/render/render_object.h:612-617 | full invalidation at a list of positions clears a chunk exactly when one of them lies in it |
| `World.Touched` | include/render/render_object.h:618-629 | `invalidateBlock` touches the position and its six face neighbours |
| `World.TouchedCoversReaders` | include/render/render_object.h:618-629 | every block that reads a changed block as a face neighbour is among the touched positions |
| `World.NeighbourBase` | include/render/render_object.h:526-531 | the neighbour chunk along a face is one chunk size away along that face's axis |
| `World.AcrossSeam` | include/render/render_object.h:393-398 | a face neighbour outside the chunk lies in the neighbour chunk along that face, at the wrapped index |
| `World.AxisNeighbours` | include/render/render_object.h:713-718 | `setChunk` invalidates the six chunks next to it along the axes |
| `World.AxisNeighboursElsewhere` | include/render/render_object.h:713-718 | none of those six lies in the chunk itself |
| `World.RenderObjectWorld.GetChunk` | include/render/render_object.h:515-522 | null exactly when no chunk is stored at the position; otherwise the chunk there, whose base is that position |
| `World.RenderObjectWorld.GetBlock` | include/render/render_object.h:631-639 | a position with no chunk reads as the empty block |
| `World.RenderObjectWorld.GetBlockAt` | include/render/render_object.h:631-639 | otherwise the block at the relative position in the chunk holding it |
| `World.RenderObjectWorld.NeighbourBlocks` | include/render/render_object.h:524-537 | the six neighbour arguments are the chunks at the six neighbour bases, or none |
| `World.RenderObjectWorld.SideBlockIsWorldBlock` | include/render/render_object.h:393-398 | the side block a chunk uses while meshing is the world's block one step along the face, across chunk seams too |
| `World.RenderObjectWorld.InvalidateChunkMeshes` | include/render/render_object.h:606-611 | only the sub-chunk of the position, in the chunk holding it, is invalidated |
| `World.RenderObjectWorld.InvalidateBlock` | include/render/render_object.h:618-629 | with no chunk at the position nothing changes; otherwise the sub-chunks of the position and of its six face neighbours are invalidated, in whatever chunks hold them |
| `World.RenderObjectWorld.ChunkAt` | include/render/render_object.h:643-650 | an existing chunk is reused, or a fresh empty chunk is created; no block changes |
| `World.RenderObjectWorld.StoreBlock` | include/render/render_object.h:652-653 | only the block at the position changes |
| `World.RenderObjectWorld.SetBlock` | include/render/render_object.h:640-656 | afterwards `getBlock` sees the new block at the position and the old block everywhere else; the chunk exists; the touched sub-chunks are invalidated |
| `World.RenderObjectWorld.InvalidateChunkMeshesAll` | include/render/render_object.h:612-617 | every flag of the chunk holding the position is cleared |
| `World.RenderObjectWorld.InstallChunk` | include/render/render_object.h:708-711 | the chunk is stored under its base, replacing any earlier one, and its blocks become the world's blocks there |
| `World.RenderObjectWorld.SetChunk` | include/render/render_object.h:703-719 | the chunk is stored and keeps its flags and meshes; each axis neighbour is fully invalidated; blocks elsewhere are unchanged |
| `World.RenderObjectWorld.InvalidateAxisNeighbours` | include/render/render_object.h:713-718 | each of the six axis neighbours is fully invalidated, if present |
| `World.RenderObjectWorld.GenerateMesh` | include/render/render_object.h:524-537 | `true` exactly when a chunk is there and its meshes were stale; that chunk is regenerated with its six neighbours, and no other chunk changes |
| `World.RenderObjectWorld.GenerateMeshes` | include/render/render_object.h:539-559 | `false` with nothing changed when no chunk is stale; otherwise a stale chunk nearest to the position, by squared distance, is regenerated and no other chunk changes |
| `World.ReadWorld` | include/render/render_object.h:657-672 | an absent chunk, or a second chunk at one base position, is an InvalidDataValueException; otherwise the world holds exactly the chunks read, each under its base |
| `Physics.MakeProperties` | include/physics/physics.h:38-43 | both factors are clamped into [0, 1] and kept when already inside |
| `Physics.BodiesCollide` | include/physics/physics.h:473-533 | an empty shape or a different dimension never collides; nor does any axis gap beyond the summed extents plus distanceEPS; two boxes within that bound collide |
| `Physics.CollidesSymmetric` | include/physics/physics.h:473-533 | the collision test is symmetric |
| `Physics.SupportedByAsWritten` | include/physics/physics.h:932-994 | the support test as written, including the `assert(false)` reached for an empty supporter |
| `Physics.EmptySupporterReachesAssert` | include/physics/physics.h:947-989 | a falling box resting on an empty static object reaches the `assert(false)` |
| `Physics.AssertFailsOnlyOnEmpty` | include/physics/physics.h:932-994 | only an empty shape reaches the assertion |
| `Physics.SupportedBy` | include/physics/physics.h:932-994 | a static object needs no support; a non-static supporter must itself be supported; a different dimension, a supporter not lower down, or an empty shape never supports; a box resting on a box within the support band does |
| `Physics.SupportedByAgrees` | include/physics/physics.h:932-994 | the corrected test agrees with the source wherever the source does not fail its assertion |
| `Physics.SupportAntisymmetric` | include/physics/physics.h:932-994 | two objects never support each other |
| `Physics.StackedBoxesSupported` | include/physics/physics.h:932-994 | a unit box resting on a static unit box is supported |
| `Physics.RunningAverageIsMean` | include/physics/physics.h:445-460 | the running average of `setNewState` is the mean of all proposals so far |
| `Physics.PhysicsWorld.constructor` | include/physics/physics.h:176-198 | time 0, index 0, no objects and no changes |
| `Physics.PhysicsWorld.GetOldVariableSetIndex` | include/physics/physics.h:188-191 | the old index is 0 or 1 |
| `Physics.PhysicsWorld.GetNewVariableSetIndex` | include/physics/physics.h:192-195 | the new index is 0 or 1 and differs from the old one |
| `Physics.PhysicsWorld.IndicesComplementary` | include/physics/physics.h:188-195 | the two indices are 0 and 1 in some order |
| `Physics.PhysicsWorld.SwapVariableSetIndex` | include/physics/physics.h:247-250 | old and new indices trade places; nothing else changes |
| `Physics.PhysicsWorld.PurgeAndSetup` | include/physics/physics.h:603-612 | destroyed objects leave the world untouched, and every other object has its new slot copied from its old slot and its proposal count reset |
| `Physics.PhysicsWorld.SupportPass` | include/physics/physics.h:559-589 | every live object's old slot is refreshed to its extrapolated state at the current time; empty objects are unsupported and static ones supported; any other object is supported exactly when one of the live objects before it in the pass supports it; destroyed objects are untouched |
| `Physics.PhysicsWorld.SupportStep` | include/physics/physics.h:561-588 | one iteration of the pass: the object's support flag is computed from the objects before it |
| `Physics.PhysicsObject.constructor` | include/physics/physics.h:385-396 | both slots hold the given position and velocity at the world's current time; not supported, not destroyed, no updates |
| `Physics.PhysicsObject.MakeBox` | include/physics/physics.h:398-404 | a new box with the given extents joins the world's objects and changed objects |
| `Physics.PhysicsObject.MakeCylinder` | include/physics/physics.h:406-412 | a new cylinder with extents (r, h, r) joins the world's objects and changed objects |
| `Physics.PhysicsObject.MakeEmpty` | include/physics/physics.h:414-419 | a new static, gravity-free empty object with zero extents and default properties joins the objects but not the changed objects |
| `Physics.PhysicsObject.GetPosition` | include/physics/physics.h:425-433 | the dimension is kept, and with no elapsed time the stored position is returned |
| `Physics.PhysicsObject.GetVelocity` | include/physics/physics.h:435-443 | with no elapsed time, or when not falling, the stored velocity is returned |
| `Physics.PhysicsObject.PositionFollowsVelocity` | include/physics/physics.h:425-443 | the displacement over the elapsed time is the elapsed time times the mean of the stored and current velocities |
| `Physics.PhysicsObject.Destroy` | include/physics/physics.h:139-142 | the object is marked destroyed and nothing else changes |
| `Physics.PhysicsObject.RefreshForSupport` | include/physics/physics.h:565-588 | the old slot holds the extrapolated state at the current time, and the support flag is `SupportFlag` over the earlier objects |
| `Physics.PhysicsObject.SetupNewState` | include/physics/physics.h:462-471 | the new slot is a copy of the old slot, and the proposal count is 0 |
| `Physics.PhysicsObject.SetNewState` | include/physics/physics.h:445-460 | the new slot holds the mean of all proposals so far; the update tag and count go up by one; the object is recorded as changed |
| `Physics.PhysicsObject.AdjustPosition` | include/physics/physics.h:756-930 | a static object is not moved; any other object records the corrected state as one more proposal |
| `Physics.SupportedByAny` | include/physics/physics.h:578-588 | the inner loop yields true exactly when some live earlier object supports the object |

## Left out

- Platform matters: file and network I/O, threads, atomics and locks. The
  model is sequential; `MemoryReader` stands for every reader; a mutex
  protects no state the model lacks.
- `DumpingReader`, `StreamPipe`, the bidirectional pipes and
  `FileReader`/`FileWriter`: these are platform wrappers over the byte
  interface.
- The float and double codecs and `readFinite`: these pun bits through
  IEEE 754, which has no counterpart over `real`.
- `triangle.h`, the texture `Image` codec, `Matrix` and `ColorF`: these are
  not part of this model. Triangles, matrices and colours are
  uninterpreted values. Triangle bytes come from a codec passed in as a
  parameter. An image's own bytes are a payload parameter.
- The `PhysicsObjectConstructor` stream codec and `make`: they are not part
  of this model.
- The physics narrow phase:
  - the numerical collision response inside `adjustPosition`, with its
    bounce and slide arithmetic;
  - the spatial hash of `runToTime`;
  - the ten-round relaxation loop and the step count from `timeEPS`.
- The spatial hash also holds the typo `(size_t)(maxX * minX)` at
  `physics/physics.h:627`. Since the hash is not modelled, this typo is
  only noted here.
- The ordering of the support pass by the bottom of each object: the pass
  takes its order as a parameter, so any order is covered.
- Constraints and scripts, `setCurrentState`, `getConstraints`, and the
  world's `changedObjects` weak-pointer bookkeeping beyond membership.
- `gravityVector`: it is a world constant (`gravity`), because
  `position.h` is not part of this model.
- Physics arithmetic uses `real` rather than `float`. Rounding is not
  modelled.
- `RenderObjectWorld::draw`, entity drawing and the GPU mesh cache: these
  call into the renderer.
- The entity list and its codec, `createPhysicsObjects` and
  `destroyPhysicsObjects`.
- The change tracker.
- The `BlockChunk` codec used by chunk `read`/`write`: `ReadWorld` starts
  from the chunks already read. `World.ReadWorld`,
  `World.RenderObjectWorld.InstallChunk` and `World.RenderObjectWorld.SetChunk`
  take chunks with grid-aligned base positions. The code does not check
  this; the guarantee belongs to `BlockChunk`, which is not part of this
  model.
- `Physics.PhysicsObject.GetPosition`: its contract states only the
  dimension and the zero-elapsed-time case. The kinematic formula is stated
  instead by `Physics.PhysicsObject.PositionFollowsVelocity`.
- `Physics.PhysicsObject.GetVelocity`: its contract states the stored
  velocity only with no elapsed time or when the object is not falling. The
  gravity extrapolation `v0 + g·dt` of a falling object is not stated;
  `Physics.PhysicsObject.PositionFollowsVelocity` relates the extrapolated
  position to the velocities.
- `Physics.PhysicsObject.AdjustPosition`: the corrected position and
  velocity are parameters, so the contract states how they are recorded,
  not how they are computed.
- `Variables.WriteRef`: the object's own `write` is modelled as a fixed
  `payload` of bytes. References that this nested `write` adds to the
  variable set (new descriptors, a moved counter) are not modelled.
- `Variables.ReadRef`: the object's own `read` is modelled as a pure
  `ObjectReader` that returns a non-null object. Variables that a nested
  `read` stores in the variable set are not modelled. Neither is a nested
  `read` that returns null, which the code would store under the
  descriptor.
- `StreamIO.StreamServerWrapper`: the next server is modelled as another
  wrapper (or none). Chains of wrappers are covered; any other
  `StreamServer` implementation behind the wrapper is not.
- `StreamCodec.EncodeChar`: the three-byte form is used only up to 0xFFF,
  as the code does. Characters from 0x1000 to 0xFFFF use the four-byte
  form, and the model keeps that encoding.

## Findings

| source | as written | input that shows it | evidently intended | confidence | as-written member | corrected member |
|---|---|---|---|---|---|---|
| include/util/variable_set.h:62-65, used at 151 | `operator!` of a descriptor returns `descriptorIndex != 0`, so `read` returns null for every non-null descriptor and goes on reading a flag after a null one | any non-null descriptor written by `write`, e.g. index 1 with the known flag | `!descriptor` true only for the null descriptor | high, not executed | `Variables.AsWrittenReadDropsReference` | `Variables.IntendedReadRoundTrip` |
| include/physics/physics.h:951-989 | `isSupportedBy` ends in `assert(false)` when the supporter is an empty object; empty objects are static, so they pass the earlier support guard | a non-static box at y = 1 with extents 0.5 above an empty static object at y = 0.499, same dimension | an empty object supports nothing (the release build falls through to `return false`) | high, not executed | `Physics.EmptySupporterReachesAssert` | `Physics.SupportedByAgrees` |
