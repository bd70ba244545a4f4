/** The mesh container of include/render/mesh.h: an ordered list of
    triangles plus an optional shared image, its append and clear
    operations, the copies that transform or colorize every triangle, the
    count-prefixed serialisation, and the renderer's depth-buffer switch.

    Triangle geometry, matrices, colours and images are not modelled:
    `Transformed` and `Colorized` record which operation produced a
    triangle, and an image is a shared object identified by `Addr`. */
module Meshes {
  import opened Wrappers
  import opened StreamCodec
  import opened StreamIO
  import opened Variables
  import opened RenderLayers

  /** A transformation matrix: identified only, or `Matrix::translate(v)`. */
  datatype Matrix = Matrix(id: nat) | Translate(x: int, y: int, z: int)

  /** A colour, identified only. */
  datatype Color = Color(id: nat)

  /** A triangle: an original one, or the result of `transform` or `colorize`. */
  datatype Triangle = Triangle(id: nat) | Transformed(tform: Matrix, source: Triangle) | Colorized(color: Color, source: Triangle)

  /** The value of a `Mesh`. */
  datatype MeshData = MeshData(triangles: seq<Triangle>, image: Option<Addr>)
  {
    /** `size()`. */
    function Size(): nat
    {
      |triangles|
    }
  }

  const EmptyMesh := MeshData([], None)

  /** The assertion of every `append` overload: at most one image among the
      two meshes, or the same one. */
  predicate ImagesCompatible(image: Option<Addr>, other: Option<Addr>)
  {
    other.None? || image.None? || image == other
  }

  /** The image after an append: `rt`'s image when it has one. */
  function AdoptImage(image: Option<Addr>, other: Option<Addr>): (r: Option<Addr>)
    ensures other.Some? ==> r == other
    ensures other.None? ==> r == image
    ensures r.None? <==> image.None? && other.None?
  {
    if other.Some? then other else image
  }

  /** The value `append(rt)` leaves: `rt`'s triangles after ours, and
      `rt`'s image when it has one. */
  function Appended(m: MeshData, rt: MeshData): (r: MeshData)
    ensures r.Size() == m.Size() + rt.Size()
    ensures r.triangles[..m.Size()] == m.triangles && r.triangles[m.Size()..] == rt.triangles
    ensures ImagesCompatible(m.image, rt.image) ==> ImagesCompatible(m.image, r.image) && ImagesCompatible(rt.image, r.image)
  {
    MeshData(m.triangles + rt.triangles, AdoptImage(m.image, rt.image))
  }

  /** Every triangle through `f`, in order. */
  function MapTriangles(ts: seq<Triangle>, f: Triangle -> Triangle): (r: seq<Triangle>)
    ensures |r| == |ts|
    ensures forall k :: 0 <= k < |ts| ==> r[k] == f(ts[k])
  {
    seq(|ts|, k requires 0 <= k < |ts| => f(ts[k]))
  }

  function TransformTriangle(tform: Matrix): Triangle -> Triangle
  {
    t => Transformed(tform, t)
  }

  function ColorizeTriangle(color: Color): Triangle -> Triangle
  {
    t => Colorized(color, t)
  }

  function ColorizeTransformTriangle(color: Color, tform: Matrix): Triangle -> Triangle
  {
    t => Colorized(color, Transformed(tform, t))
  }

  /** `Mesh(rt, tform)`: the same image, every triangle transformed, in order. */
  function TransformedCopy(rt: MeshData, tform: Matrix): (r: MeshData)
    ensures r.Size() == rt.Size() && r.image == rt.image
    ensures forall k :: 0 <= k < rt.Size() ==> r.triangles[k] == Transformed(tform, rt.triangles[k])
  {
    MeshData(MapTriangles(rt.triangles, TransformTriangle(tform)), rt.image)
  }

  /** `Mesh(rt, color)`. */
  function ColorizedCopy(rt: MeshData, color: Color): (r: MeshData)
    ensures r.Size() == rt.Size() && r.image == rt.image
    ensures forall k :: 0 <= k < rt.Size() ==> r.triangles[k] == Colorized(color, rt.triangles[k])
  {
    MeshData(MapTriangles(rt.triangles, ColorizeTriangle(color)), rt.image)
  }

  /** `Mesh(rt, color, tform)`: transform first, then colorize. */
  function ColorizedTransformedCopy(rt: MeshData, color: Color, tform: Matrix): (r: MeshData)
    ensures r.Size() == rt.Size() && r.image == rt.image
    ensures forall k :: 0 <= k < rt.Size() ==>
              r.triangles[k] == Colorized(color, Transformed(tform, rt.triangles[k]))
    ensures r == ColorizedCopy(TransformedCopy(rt, tform), color)
  {
    MeshData(MapTriangles(rt.triangles, ColorizeTransformTriangle(color, tform)), rt.image)
  }

  /** `Mesh`: the triangle vector and the image, updated in place. */
  class Mesh {
    var triangles: seq<Triangle>
    var image: Option<Addr>

    function Data(): MeshData
      reads this
    {
      MeshData(triangles, image)
    }

    /** `Mesh(triangles, image)`; the default arguments give the empty mesh. */
    constructor (triangles: seq<Triangle>, image: Option<Addr>)
      ensures Data() == MeshData(triangles, image)
    {
      this.triangles := triangles;
      this.image := image;
    }

    /** `size()`. */
    function Size(): nat
      reads this
    {
      |triangles|
    }

    /** `append(rt)`: `rt`'s triangles after ours; `rt`'s image if it has one. */
    method Append(rt: MeshData)
      requires ImagesCompatible(image, rt.image)
      modifies this
      ensures Data() == Appended(old(Data()), rt)
    {
      if rt.image.Some? {
        image := rt.image;
      }
      triangles := triangles + rt.triangles;
    }

    /** The `std::transform` into `back_inserter(triangles)` shared by the
        transforming appends. */
    method AppendMapped(rt: seq<Triangle>, f: Triangle -> Triangle)
      modifies this
      ensures triangles == old(triangles) + MapTriangles(rt, f)
      ensures image == old(image)
    {
      var i := 0;
      while i < |rt|
        invariant 0 <= i <= |rt|
        invariant triangles == old(triangles) + MapTriangles(rt[..i], f)
        invariant image == old(image)
      {
        assert MapTriangles(rt[..i + 1], f) == MapTriangles(rt[..i], f) + [f(rt[i])];
        triangles := triangles + [f(rt[i])];
        i := i + 1;
      }
      assert rt[..|rt|] == rt;
    }

    /** `append(rt, tform)`. */
    method AppendTransformed(rt: MeshData, tform: Matrix)
      requires ImagesCompatible(image, rt.image)
      modifies this
      ensures Data() == Appended(old(Data()), TransformedCopy(rt, tform))
    {
      if rt.image.Some? {
        image := rt.image;
      }
      AppendMapped(rt.triangles, TransformTriangle(tform));
    }

    /** `append(rt, color)`. */
    method AppendColorized(rt: MeshData, color: Color)
      requires ImagesCompatible(image, rt.image)
      modifies this
      ensures Data() == Appended(old(Data()), ColorizedCopy(rt, color))
    {
      if rt.image.Some? {
        image := rt.image;
      }
      AppendMapped(rt.triangles, ColorizeTriangle(color));
    }

    /** `append(rt, color, tform)`. */
    method AppendColorizedTransformed(rt: MeshData, color: Color, tform: Matrix)
      requires ImagesCompatible(image, rt.image)
      modifies this
      ensures Data() == Appended(old(Data()), ColorizedTransformedCopy(rt, color, tform))
    {
      if rt.image.Some? {
        image := rt.image;
      }
      AppendMapped(rt.triangles, ColorizeTransformTriangle(color, tform));
    }

    /** `append(triangle)`: one triangle at the end, the image unchanged. */
    method AppendTriangle(triangle: Triangle)
      modifies this
      ensures triangles == old(triangles) + [triangle] && image == old(image)
    {
      triangles := triangles + [triangle];
    }

    /** `clear()`: no triangles and no image. */
    method Clear()
      modifies this
      ensures Data() == EmptyMesh
    {
      triangles := [];
      image := None;
    }

    /** `write(writer, variableSet)`: the triangle count as a `uint32_t`,
        each triangle through `encodeTriangle`, then the image through the
        variable set, `imagePayload` standing for the image's own bytes. */
    method Write(writer: Writer, vs: VariableSet, counter: IndexSource,
                 encodeTriangle: Triangle -> seq<Byte>, imagePayload: seq<Byte>)
      requires |triangles| < 0x1_0000_0000
      modifies writer, vs, counter
      ensures var w := EncodeRefWith(old(vs.State()), old(counter.last), image, false, imagePayload);
              writer.bytes == old(writer.bytes) + EncodeU32(|triangles|) +
                              EncodeTriangles(triangles, encodeTriangle) + w.bytes &&
              vs.State() == w.tables && counter.last == w.last
    {
      writer.WriteU32(|triangles|);
      var i := 0;
      while i < |triangles|
        invariant 0 <= i <= |triangles|
        invariant writer.bytes == old(writer.bytes) + EncodeU32(|triangles|) +
                                  EncodeTriangles(triangles[..i], encodeTriangle)
        invariant vs.State() == old(vs.State()) && counter.last == old(counter.last)
      {
        writer.WriteBytes(encodeTriangle(triangles[i]));
        EncodeTrianglesSnoc(triangles[..i], triangles[i], encodeTriangle);
        assert triangles[..i + 1] == triangles[..i] + [triangles[i]];
        i := i + 1;
      }
      assert triangles[..|triangles|] == triangles;
      WriteRef(writer, vs, counter, image, false, imagePayload);
    }
  }

  // ---------------------------------------------------------------------------
  // Serialisation (mesh.h:196-218)

  /** The triangles' own encodings, one after the other. */
  function EncodeTriangles(ts: seq<Triangle>, encodeTriangle: Triangle -> seq<Byte>): seq<Byte>
  {
    if ts == [] then [] else encodeTriangle(ts[0]) + EncodeTriangles(ts[1..], encodeTriangle)
  }

  lemma {:induction false} EncodeTrianglesSnoc(ts: seq<Triangle>, t: Triangle, encodeTriangle: Triangle -> seq<Byte>)
    ensures EncodeTriangles(ts + [t], encodeTriangle) == EncodeTriangles(ts, encodeTriangle) + encodeTriangle(t)
  {
    if ts == [] {
      assert [t][1..] == [];
    } else {
      assert (ts + [t])[1..] == ts[1..] + [t];
      EncodeTrianglesSnoc(ts[1..], t, encodeTriangle);
    }
  }

  /** A triangle reader that reads back exactly what the writer wrote,
      whatever follows it. */
  ghost predicate TriangleCodec(encodeTriangle: Triangle -> seq<Byte>, decodeTriangle: (seq<Byte>, nat) -> Parse<Triangle>)
  {
    forall t: Triangle, s: seq<Byte>, i: nat {:trigger decodeTriangle(s, i), encodeTriangle(t)} ::
      i + |encodeTriangle(t)| <= |s| && s[i..i + |encodeTriangle(t)|] == encodeTriangle(t) ==>
        decodeTriangle(s, i) == Parse(Success(t), i + |encodeTriangle(t)|)
  }

  /** The loop of `read` that collects `count` triangles from offset `i`. */
  function DecodeTriangles(s: seq<Byte>, i: nat, count: nat, decodeTriangle: (seq<Byte>, nat) -> Parse<Triangle>)
    : Parse<seq<Triangle>>
    decreases count
  {
    if count == 0 then Parse(Success([]), i)
    else
      var t := decodeTriangle(s, i);
      if t.result.Failure? then Fail(t.result.error, t.next)
      else
        var rest := DecodeTriangles(s, t.next, count - 1, decodeTriangle);
        if rest.result.Failure? then rest
        else Parse(Success([t.result.value] + rest.result.value), rest.next)
  }

  /** A successful parse with `prefix` in front of its value. */
  function Prepend(prefix: seq<Triangle>, p: Parse<seq<Triangle>>): Parse<seq<Triangle>>
  {
    if p.result.Failure? then p else Parse(Success(prefix + p.result.value), p.next)
  }

  lemma PrependEmpty(p: Parse<seq<Triangle>>)
    ensures Prepend([], p) == p
  {
    if p.result.Success? {
      assert [] + p.result.value == p.result.value;
    }
  }

  lemma PrependAssociative(a: seq<Triangle>, b: seq<Triangle>, p: Parse<seq<Triangle>>)
    ensures Prepend(a, Prepend(b, p)) == Prepend(a + b, p)
  {
    if p.result.Success? {
      assert a + (b + p.result.value) == a + b + p.result.value;
    }
  }

  /** The triangles `write` emitted are read back, in order and in number. */
  lemma {:induction false} DecodeEncodedTriangles(ts: seq<Triangle>, s: seq<Byte>, i: nat,
      encodeTriangle: Triangle -> seq<Byte>, decodeTriangle: (seq<Byte>, nat) -> Parse<Triangle>)
    requires TriangleCodec(encodeTriangle, decodeTriangle)
    requires i + |EncodeTriangles(ts, encodeTriangle)| <= |s|
    requires s[i..i + |EncodeTriangles(ts, encodeTriangle)|] == EncodeTriangles(ts, encodeTriangle)
    ensures DecodeTriangles(s, i, |ts|, decodeTriangle) ==
            Parse(Success(ts), i + |EncodeTriangles(ts, encodeTriangle)|)
  {
    if ts != [] {
      var j := DecodeFirstTriangle(ts, s, i, encodeTriangle, decodeTriangle);
      DecodeEncodedTriangles(ts[1..], s, j, encodeTriangle, decodeTriangle);
      DecodeTrianglesStep(s, i, |ts| - 1, decodeTriangle, ts[0], j);
      assert [ts[0]] + ts[1..] == ts;
    }
  }

  /** The first triangle of an encoded run is read back, and the encoding
      of the rest follows it at `j`. */
  lemma DecodeFirstTriangle(ts: seq<Triangle>, s: seq<Byte>, i: nat,
      encodeTriangle: Triangle -> seq<Byte>, decodeTriangle: (seq<Byte>, nat) -> Parse<Triangle>) returns (j: nat)
    requires ts != [] && TriangleCodec(encodeTriangle, decodeTriangle)
    requires i + |EncodeTriangles(ts, encodeTriangle)| <= |s|
    requires s[i..i + |EncodeTriangles(ts, encodeTriangle)|] == EncodeTriangles(ts, encodeTriangle)
    ensures j + |EncodeTriangles(ts[1..], encodeTriangle)| == i + |EncodeTriangles(ts, encodeTriangle)|
    ensures s[j..j + |EncodeTriangles(ts[1..], encodeTriangle)|] == EncodeTriangles(ts[1..], encodeTriangle)
    ensures decodeTriangle(s, i) == Parse(Success(ts[0]), j)
  {
    var e, rest := encodeTriangle(ts[0]), EncodeTriangles(ts[1..], encodeTriangle);
    assert EncodeTriangles(ts, encodeTriangle) == e + rest;
    SplitSlice(s, i, e, rest);
    j := i + |e|;
  }

  /** A triangle read at `i` is put in front of the rest of the loop's triangles. */
  lemma DecodeTrianglesStep(s: seq<Byte>, i: nat, n: nat, decodeTriangle: (seq<Byte>, nat) -> Parse<Triangle>,
      t: Triangle, j: nat)
    requires decodeTriangle(s, i) == Parse(Success(t), j)
    ensures var rest := DecodeTriangles(s, j, n, decodeTriangle);
            DecodeTriangles(s, i, n + 1, decodeTriangle) ==
              if rest.result.Failure? then rest else Parse(Success([t] + rest.result.value), rest.next)
  {
  }

  /** What `read` produces: the mesh or the exception, the offset reached,
      and the variable set's tables afterwards. */
  datatype MeshRead = MeshRead(result: Result<MeshData, IOError>, next: nat, tables: Tables)

  /** `Mesh::read`: the count, that many triangles, then the image through
      the variable set's `read` as written. */
  function DecodeMesh(s: seq<Byte>, i: nat, t: Tables,
                      decodeTriangle: (seq<Byte>, nat) -> Parse<Triangle>, readImage: ObjectReader): MeshRead
  {
    var count := DecodeU32(s, i);
    if count.result.Failure? then MeshRead(Failure(count.result.error), count.next, t)
    else
      var ts := DecodeTriangles(s, count.next, count.result.value, decodeTriangle);
      if ts.result.Failure? then MeshRead(Failure(ts.result.error), ts.next, t)
      else
        var img := DecodeRefAsWritten(s, ts.next, t, readImage);
        if img.result.Failure? then MeshRead(Failure(img.result.error), img.next, img.tables)
        else MeshRead(Success(MeshData(ts.result.value, img.result.value)), img.next, img.tables)
  }

  /** Reading what `write` emitted gives back the triangles, in number and
      in order; what follows them is the image, read through the variable
      set's `read` as written. */
  lemma MeshTrianglesRoundTrip(m: MeshData, s: seq<Byte>, rest: seq<Byte>, t: Tables,
      encodeTriangle: Triangle -> seq<Byte>, decodeTriangle: (seq<Byte>, nat) -> Parse<Triangle>, readImage: ObjectReader)
    requires TriangleCodec(encodeTriangle, decodeTriangle) && m.Size() < 0x1_0000_0000
    requires s == EncodeU32(m.Size()) + EncodeTriangles(m.triangles, encodeTriangle) + rest
    ensures var img := DecodeRefAsWritten(s, 4 + |EncodeTriangles(m.triangles, encodeTriangle)|, t, readImage);
            DecodeMesh(s, 0, t, decodeTriangle, readImage) ==
              if img.result.Failure? then MeshRead(Failure(img.result.error), img.next, img.tables)
              else MeshRead(Success(MeshData(m.triangles, img.result.value)), img.next, img.tables)
  {
    var e := EncodeTriangles(m.triangles, encodeTriangle);
    CountPrefix(s, m.Size(), e, rest);
    DecodeEncodedTriangles(m.triangles, s, 4, encodeTriangle, decodeTriangle);
    DecodeMeshOf(s, m.triangles, 4 + |e|, t, decodeTriangle, readImage);
  }

  lemma CountPrefix(s: seq<Byte>, n: U32, e: seq<Byte>, rest: seq<Byte>)
    requires s == EncodeU32(n) + e + rest
    ensures DecodeU32(s, 0) == Parse(Success(n), 4)
    ensures 4 + |e| <= |s| && s[4..4 + |e|] == e
  {
    assert s[0..4] == EncodeU32(n);
    DecodeU32RoundTrip(s, 0, n);
  }

  lemma DecodeMeshOf(s: seq<Byte>, ts: seq<Triangle>, j: nat, t: Tables,
      decodeTriangle: (seq<Byte>, nat) -> Parse<Triangle>, readImage: ObjectReader)
    requires DecodeU32(s, 0) == Parse(Success(|ts|), 4)
    requires DecodeTriangles(s, 4, |ts|, decodeTriangle) == Parse(Success(ts), j)
    ensures var img := DecodeRefAsWritten(s, j, t, readImage);
            DecodeMesh(s, 0, t, decodeTriangle, readImage) ==
              if img.result.Failure? then MeshRead(Failure(img.result.error), img.next, img.tables)
              else MeshRead(Success(MeshData(ts, img.result.value)), img.next, img.tables)
  {
  }

  /** `Mesh::read` over a `MemoryReader`. */
  method ReadMesh(reader: MemoryReader, vs: VariableSet,
                  decodeTriangle: (seq<Byte>, nat) -> Parse<Triangle>, readImage: ObjectReader)
    returns (r: Result<MeshData, IOError>)
    requires reader.Valid() && WellBehaved(readImage)
    requires forall s: seq<Byte>, k: nat {:trigger decodeTriangle(s, k)} ::
               k <= |s| ==> k <= decodeTriangle(s, k).next <= |s|
    modifies reader, vs
    ensures reader.Valid()
    ensures var p := DecodeMesh(reader.Input(), old(reader.offset), old(vs.State()), decodeTriangle, readImage);
            r == p.result && reader.offset == p.next && vs.State() == p.tables
  {
    var count := reader.ReadU32();
    if count.Failure? {
      return Failure(count.error);
    }
    ghost var start := reader.offset;
    var triangles: seq<Triangle> := [];
    PrependEmpty(DecodeTriangles(reader.Input(), start, count.value, decodeTriangle));
    var i := 0;
    while i < count.value
      invariant reader.Valid() && 0 <= i <= count.value
      invariant vs.State() == old(vs.State())
      invariant DecodeTriangles(reader.Input(), start, count.value, decodeTriangle) ==
                Prepend(triangles, DecodeTriangles(reader.Input(), reader.offset, count.value - i, decodeTriangle))
    {
      var t := decodeTriangle(reader.Input(), reader.offset);
      reader.offset := t.next;
      if t.result.Failure? {
        return Failure(t.result.error);
      }
      PrependAssociative(triangles, [t.result.value],
                         DecodeTriangles(reader.Input(), reader.offset, count.value - i - 1, decodeTriangle));
      triangles := triangles + [t.result.value];
      i := i + 1;
    }
    assert triangles + [] == triangles;
    var image := ReadRef(reader, vs, readImage);
    if image.Failure? {
      return Failure(image.error);
    }
    r := Success(MeshData(triangles, image.value));
  }

  /** `Renderer`: only the depth-buffer switch is modelled. */
  class Renderer {
    var depthBufferEnabled: bool

    constructor ()
      ensures depthBufferEnabled
    {
      depthBufferEnabled := true;
    }

    /** `renderer << enable_depth_buffer`. */
    method EnableDepthBuffer()
      modifies this
      ensures depthBufferEnabled
    {
      depthBufferEnabled := true;
    }

    /** `renderer << disable_depth_buffer`. */
    method DisableDepthBuffer()
      modifies this
      ensures !depthBufferEnabled
    {
      depthBufferEnabled := false;
    }

    /** `renderer << rl`: depth testing for the opaque layer only; the
        source asserts that `rl` is a drawable layer. */
    method SelectLayer(rl: RenderLayer)
      requires rl != Last
      modifies this
      ensures depthBufferEnabled <==> rl == Opaque
    {
      match rl {
        case Opaque => depthBufferEnabled := true;
        case Translucent => depthBufferEnabled := false;
      }
    }
  }
}
