/** The voxel blocks of include/render/render_object.h: block faces and
    their unit offsets, the face-culling rule, the drawing of one block,
    and the chunk coordinates every chunk and world operation relies on. */
module Blocks {
  import opened Wrappers
  import opened StreamCodec
  import opened Variables
  import opened RenderLayers
  import opened Meshes

  /** `BlockFace`, in enumeration order. */
  datatype BlockFace = NX | PX | NY | PY | NZ | PZ

  /** Every face, as iterating `enum_traits<BlockFace>` visits them. */
  const Faces: seq<BlockFace> := [NX, PX, NY, PY, NZ, PZ]

  /** The face on the other side of a block. */
  function Opposite(face: BlockFace): BlockFace
  {
    match face
    case NX => PX
    case PX => NX
    case NY => PY
    case PY => NY
    case NZ => PZ
    case PZ => NZ
  }

  /** `getDX`. */
  function DX(face: BlockFace): (d: int)
    ensures d == -1 <==> face == NX
    ensures d == 1 <==> face == PX
    ensures d == 0 <==> face != NX && face != PX
  {
    if face == NX then -1 else if face == PX then 1 else 0
  }

  /** `getDY`. */
  function DY(face: BlockFace): (d: int)
    ensures d == -1 <==> face == NY
    ensures d == 1 <==> face == PY
    ensures d == 0 <==> face != NY && face != PY
  {
    if face == NY then -1 else if face == PY then 1 else 0
  }

  /** `getDZ`. */
  function DZ(face: BlockFace): (d: int)
    ensures d == -1 <==> face == NZ
    ensures d == 1 <==> face == PZ
    ensures d == 0 <==> face != NZ && face != PZ
  {
    if face == NZ then -1 else if face == PZ then 1 else 0
  }

  /** An integer vector (`VectorI`). */
  datatype Vector = Vector(x: int, y: int, z: int)
  {
    function Neg(): Vector
    {
      Vector(-x, -y, -z)
    }

    /** A vector whose components are the negated components of this one is its negation. */
    lemma NegOf(v: Vector)
      requires v.x == -x && v.y == -y && v.z == -z
      ensures v == Neg()
    {
    }

    function Scale(k: int): Vector
    {
      Vector(k * x, k * y, k * z)
    }
  }

  /** `getDelta`. */
  function Delta(face: BlockFace): Vector
  {
    Vector(DX(face), DY(face), DZ(face))
  }

  /** Every face's offset has exactly one non-zero component, and it is -1 or 1. */
  lemma DeltaIsUnit(face: BlockFace)
    ensures var v := Delta(face);
            (v.x != 0 ==> v.y == 0 && v.z == 0) && (v.y != 0 ==> v.x == 0 && v.z == 0) &&
            (v.z != 0 ==> v.x == 0 && v.y == 0) && (v.x != 0 || v.y != 0 || v.z != 0) &&
            -1 <= v.x <= 1 && -1 <= v.y <= 1 && -1 <= v.z <= 1
  {
  }

  /** Opposite faces have opposite offsets. */
  lemma DeltaOpposite(face: BlockFace)
    ensures Delta(Opposite(face)) == Delta(face).Neg()
  {
    OppositeComponents(face);
    Delta(face).NegOf(Delta(Opposite(face)));
  }

  lemma OppositeComponents(face: BlockFace)
    ensures Delta(Opposite(face)).x == -Delta(face).x
    ensures Delta(Opposite(face)).y == -Delta(face).y
    ensures Delta(Opposite(face)).z == -Delta(face).z
  {
  }

  /** Different faces have different offsets. */
  lemma DeltaInjective(face: BlockFace, other: BlockFace)
    ensures Delta(face) == Delta(other) <==> face == other
  {
    match face
    case NX =>
    case PX =>
    case NY =>
    case PY =>
    case NZ =>
    case PZ =>
  }

  /** A block position (`PositionI`): coordinates and a dimension. */
  datatype Position = Position(x: int, y: int, z: int, d: nat)
  {
    function Plus(v: Vector): Position
    {
      Position(x + v.x, y + v.y, z + v.z, d)
    }

    function Minus(p: Position): Vector
    {
      Vector(x - p.x, y - p.y, z - p.z)
    }
  }

  // ---------------------------------------------------------------------------
  // Chunk coordinates. `BlockChunk` (util/block_chunk.h) is not part of this
  // model: its `chunkSizeX`, `chunkSizeY` and `chunkSizeZ` are all taken as
  // `ChunkSize`, divisible by the sub-chunk size as the `static_assert`s
  // demand.

  const ChunkSize: int := 16
  /** `subChunkSize`: `1 << subChunkSizeShiftAmount`. */
  const SubChunkSize: int := 4
  /** Sub-chunks per chunk along each axis. */
  const SubChunks: int := 4

  /** `v` rounded down to a multiple of the chunk size. */
  function FloorToChunk(v: int): (r: int)
    ensures r <= v < r + ChunkSize && r % ChunkSize == 0
  {
    (v / ChunkSize) * ChunkSize
  }

  /** `getChunkBasePosition`: each coordinate floor-divided by the chunk
      size and multiplied back; the dimension is kept. */
  function ChunkBase(p: Position): (b: Position)
    ensures b.d == p.d
    ensures b.x <= p.x < b.x + ChunkSize && b.y <= p.y < b.y + ChunkSize && b.z <= p.z < b.z + ChunkSize
    ensures b.x % ChunkSize == 0 && b.y % ChunkSize == 0 && b.z % ChunkSize == 0
  {
    Position(FloorToChunk(p.x), FloorToChunk(p.y), FloorToChunk(p.z), p.d)
  }

  /** A position some chunk's base position can be. */
  predicate IsChunkBase(p: Position)
  {
    p.x % ChunkSize == 0 && p.y % ChunkSize == 0 && p.z % ChunkSize == 0
  }

  /** `getChunkRelativePosition`: the offset from the chunk's base. */
  function ChunkRelative(p: Position): (v: Vector)
    ensures 0 <= v.x < ChunkSize && 0 <= v.y < ChunkSize && 0 <= v.z < ChunkSize
    ensures ChunkBase(p).Plus(v) == p
  {
    p.Minus(ChunkBase(p))
  }

  /** The base of a base is itself, and bases are exactly the positions
      `IsChunkBase` admits. */
  lemma ChunkBaseIdempotent(p: Position)
    ensures IsChunkBase(ChunkBase(p))
    ensures ChunkBase(ChunkBase(p)) == ChunkBase(p)
    ensures IsChunkBase(p) <==> ChunkBase(p) == p
  {
  }

  /** Every position of the chunk at `base` has that base. */
  lemma ChunkBaseOfMember(base: Position, v: Vector)
    requires IsChunkBase(base)
    requires 0 <= v.x < ChunkSize && 0 <= v.y < ChunkSize && 0 <= v.z < ChunkSize
    ensures ChunkBase(base.Plus(v)) == base && ChunkRelative(base.Plus(v)) == v
  {
    FloorOfMember(base.x, v.x);
    FloorOfMember(base.y, v.y);
    FloorOfMember(base.z, v.z);
  }

  lemma FloorOfMember(b: int, v: int)
    requires b % ChunkSize == 0 && 0 <= v < ChunkSize
    ensures FloorToChunk(b + v) == b
  {
  }

  // ---------------------------------------------------------------------------
  // Block descriptors and blocks

  /** `enum_array<T, BlockFace>`: one value per face. */
  datatype FaceArray<T> = FaceArray(nx: T, px: T, ny: T, py: T, nz: T, pz: T)
  {
    function Get(face: BlockFace): T
    {
      match face
      case NX => nx
      case PX => px
      case NY => ny
      case PY => py
      case NZ => nz
      case PZ => pz
    }
  }

  /** `BlockDrawClass`. */
  type DrawClass = U32

  /** `RenderObjectBlockDescriptor`: the meshes, which faces it blocks,
      its draw class and its layer. The `center` and face meshes are
      shared pointers that `transform` asserts non-null; they are values
      here. The physics constructor and offset are not modelled. */
  datatype BlockDescriptor = BlockDescriptor(center: MeshData, faceMesh: FaceArray<MeshData>,
                                             faceBlocked: FaceArray<bool>, drawClass: DrawClass,
                                             renderLayer: RenderLayer)

  /** `RenderObjectBlock`: a possibly null descriptor. */
  datatype Block = Block(descriptor: Option<BlockDescriptor>)

  /** `RenderObjectBlock()`, the empty block. */
  const EmptyBlock := Block(None)

  /** `needRenderFace`: a face of `block` is drawn when both blocks exist,
      their draw classes differ, and the side block does not block it. */
  predicate NeedRenderFace(face: BlockFace, block: Option<BlockDescriptor>, sideBlock: Option<BlockDescriptor>)
  {
    if block.None? then false
    else if sideBlock.None? then false
    else if block.value.drawClass == sideBlock.value.drawClass then false
    else if sideBlock.value.faceBlocked.Get(face) then false
    else true
  }

  /** The culling rule stated as one conjunction. */
  lemma NeedRenderFaceSpec(face: BlockFace, block: Option<BlockDescriptor>, sideBlock: Option<BlockDescriptor>)
    ensures NeedRenderFace(face, block, sideBlock) <==>
            block.Some? && sideBlock.Some? && block.value.drawClass != sideBlock.value.drawClass &&
            !sideBlock.value.faceBlocked.Get(face)
  {
  }

  /** Two blocks of the same draw class never draw the face between them. */
  lemma SameClassCulled(face: BlockFace, a: BlockDescriptor, b: BlockDescriptor)
    requires a.drawClass == b.drawClass
    ensures !NeedRenderFace(face, Some(a), Some(b)) && !NeedRenderFace(Opposite(face), Some(b), Some(a))
  {
  }

  /** `Matrix::translate((VectorF)position)`. */
  function TranslateTo(p: Position): Matrix
  {
    Translate(p.x, p.y, p.z)
  }

  /** `renderFace`: the face mesh moved to `pos`, appended when needed. */
  function RenderedFace(dest: MeshData, face: BlockFace, pos: Position, block: Option<BlockDescriptor>,
                        sideBlock: Option<BlockDescriptor>): (r: MeshData)
    ensures !NeedRenderFace(face, block, sideBlock) ==> r == dest
    ensures NeedRenderFace(face, block, sideBlock) ==>
              r == Appended(dest, TransformedCopy(block.value.faceMesh.Get(face), TranslateTo(pos)))
  {
    if NeedRenderFace(face, block, sideBlock) then
      Appended(dest, TransformedCopy(block.value.faceMesh.Get(face), TranslateTo(pos)))
    else dest
  }

  /** The faces from `Faces[k]` on, each appended when needed. */
  function RenderedFaces(dest: MeshData, k: nat, pos: Position, block: Option<BlockDescriptor>,
                         sides: FaceArray<Block>): MeshData
    requires k <= |Faces|
    decreases |Faces| - k
  {
    if k == |Faces| then dest
    else RenderedFaces(RenderedFace(dest, Faces[k], pos, block, sides.Get(Faces[k]).descriptor), k + 1, pos, block, sides)
  }

  /** The triangles `RenderedFaces` adds: for each remaining face that is
      needed, that face's mesh moved to `pos`, in face order. */
  function FaceTriangles(k: nat, pos: Position, block: Option<BlockDescriptor>, sides: FaceArray<Block>): seq<Triangle>
    requires k <= |Faces|
    decreases |Faces| - k
  {
    if k == |Faces| then []
    else
      (if NeedRenderFace(Faces[k], block, sides.Get(Faces[k]).descriptor)
       then TransformedCopy(block.value.faceMesh.Get(Faces[k]), TranslateTo(pos)).triangles
       else []) + FaceTriangles(k + 1, pos, block, sides)
  }

  /** The faces keep what was drawn before and add exactly the needed
      faces' triangles, in face order. */
  lemma {:induction false} RenderedFacesTriangles(dest: MeshData, k: nat, pos: Position,
                                                  block: Option<BlockDescriptor>, sides: FaceArray<Block>)
    requires k <= |Faces|
    ensures RenderedFaces(dest, k, pos, block, sides).triangles == dest.triangles + FaceTriangles(k, pos, block, sides)
    decreases |Faces| - k
  {
    if k < |Faces| {
      var next := RenderedFace(dest, Faces[k], pos, block, sides.Get(Faces[k]).descriptor);
      RenderedFacesTriangles(next, k + 1, pos, block, sides);
    }
  }

  /** What `RenderObjectBlock::draw` leaves in `dest`. */
  function DrawnBlock(dest: MeshData, layer: RenderLayer, pos: Position, block: Block, sides: FaceArray<Block>): MeshData
  {
    if block.descriptor.None? || block.descriptor.value.renderLayer != layer then dest
    else
      var withCenter := Appended(dest, TransformedCopy(block.descriptor.value.center, TranslateTo(pos)));
      RenderedFaces(withCenter, 0, pos, block.descriptor, sides)
  }

  /** `draw` adds nothing for an empty block or one of another layer;
      otherwise it adds the centre mesh, then the needed faces in the order
      NX, PX, NY, PY, NZ, PZ, all moved to the block's position. */
  lemma DrawnBlockTriangles(dest: MeshData, layer: RenderLayer, pos: Position, block: Block, sides: FaceArray<Block>)
    ensures block.descriptor.None? || block.descriptor.value.renderLayer != layer ==>
              DrawnBlock(dest, layer, pos, block, sides) == dest
    ensures block.descriptor.Some? && block.descriptor.value.renderLayer == layer ==>
              DrawnBlock(dest, layer, pos, block, sides).triangles ==
                dest.triangles + TransformedCopy(block.descriptor.value.center, TranslateTo(pos)).triangles +
                FaceTriangles(0, pos, block.descriptor, sides)
  {
    if block.descriptor.Some? && block.descriptor.value.renderLayer == layer {
      var withCenter := Appended(dest, TransformedCopy(block.descriptor.value.center, TranslateTo(pos)));
      RenderedFacesTriangles(withCenter, 0, pos, block.descriptor, sides);
    }
  }

  // ---------------------------------------------------------------------------
  // Images. Every `append` asserts that the two meshes do not carry two
  // different images; drawing keeps that true when all block meshes use
  // the same image or none.

  predicate UsesImage(m: MeshData, img: Option<Addr>)
  {
    m.image.None? || m.image == img
  }

  predicate BlockUsesImage(b: Block, img: Option<Addr>)
  {
    b.descriptor.Some? ==>
      var d := b.descriptor.value;
      UsesImage(d.center, img) && UsesImage(d.faceMesh.nx, img) && UsesImage(d.faceMesh.px, img) &&
      UsesImage(d.faceMesh.ny, img) && UsesImage(d.faceMesh.py, img) &&
      UsesImage(d.faceMesh.nz, img) && UsesImage(d.faceMesh.pz, img)
  }

  lemma AppendedUsesImage(m: MeshData, rt: MeshData, img: Option<Addr>)
    requires UsesImage(m, img) && UsesImage(rt, img)
    ensures ImagesCompatible(m.image, rt.image) && UsesImage(Appended(m, rt), img)
  {
  }

  /** The faces from `Faces[k]` on that `block` draws next to `sides`
      use `img` or no image. */
  predicate FacesUseImage(k: nat, block: Option<BlockDescriptor>, sides: FaceArray<Block>, img: Option<Addr>)
    requires k <= |Faces|
  {
    forall j :: k <= j < |Faces| ==>
      (NeedRenderFace(Faces[j], block, sides.Get(Faces[j]).descriptor) ==> UsesImage(block.value.faceMesh.Get(Faces[j]), img))
  }

  /** Exactly the meshes `draw` appends for `block` in `layer` use `img`
      or no image: nothing when the block is empty or in another layer,
      otherwise the center and the faces that are not culled. */
  predicate DrawUsesImage(block: Block, layer: RenderLayer, sides: FaceArray<Block>, img: Option<Addr>)
  {
    block.descriptor.Some? && block.descriptor.value.renderLayer == layer ==>
      UsesImage(block.descriptor.value.center, img) && FacesUseImage(0, block.descriptor, sides, img)
  }

  /** A block all of whose meshes use `img` draws only meshes that do. */
  lemma BlockDrawUsesImage(block: Block, layer: RenderLayer, sides: FaceArray<Block>, img: Option<Addr>)
    requires BlockUsesImage(block, img)
    ensures DrawUsesImage(block, layer, sides, img)
  {
    if block.descriptor.Some? {
      forall j | 0 <= j < |Faces|
        ensures UsesImage(block.descriptor.value.faceMesh.Get(Faces[j]), img)
      {
        match Faces[j]
        case NX =>
        case PX =>
        case NY =>
        case PY =>
        case NZ =>
        case PZ =>
      }
    }
  }

  /** `FacesUseImage` written out face by face, as `draw` calls
      `renderFace`. */
  lemma FacesUseImageUnrolled(block: Option<BlockDescriptor>, sides: FaceArray<Block>, img: Option<Addr>)
    requires FacesUseImage(0, block, sides, img)
    ensures NeedRenderFace(NX, block, sides.nx.descriptor) ==> UsesImage(block.value.faceMesh.Get(NX), img)
    ensures NeedRenderFace(PX, block, sides.px.descriptor) ==> UsesImage(block.value.faceMesh.Get(PX), img)
    ensures NeedRenderFace(NY, block, sides.ny.descriptor) ==> UsesImage(block.value.faceMesh.Get(NY), img)
    ensures NeedRenderFace(PY, block, sides.py.descriptor) ==> UsesImage(block.value.faceMesh.Get(PY), img)
    ensures NeedRenderFace(NZ, block, sides.nz.descriptor) ==> UsesImage(block.value.faceMesh.Get(NZ), img)
    ensures NeedRenderFace(PZ, block, sides.pz.descriptor) ==> UsesImage(block.value.faceMesh.Get(PZ), img)
  {
    assert Faces[0] == NX && Faces[1] == PX && Faces[2] == NY && Faces[3] == PY && Faces[4] == NZ && Faces[5] == PZ;
  }

  lemma {:induction false} RenderedFacesUsesImage(dest: MeshData, k: nat, pos: Position, block: Option<BlockDescriptor>,
                                                  sides: FaceArray<Block>, img: Option<Addr>)
    requires k <= |Faces|
    requires UsesImage(dest, img) && FacesUseImage(k, block, sides, img)
    ensures UsesImage(RenderedFaces(dest, k, pos, block, sides), img)
    decreases |Faces| - k
  {
    if k < |Faces| {
      var face := Faces[k];
      var next := RenderedFace(dest, face, pos, block, sides.Get(face).descriptor);
      if NeedRenderFace(face, block, sides.Get(face).descriptor) {
        AppendedUsesImage(dest, TransformedCopy(block.value.faceMesh.Get(face), TranslateTo(pos)), img);
      }
      RenderedFacesUsesImage(next, k + 1, pos, block, sides, img);
    }
  }

  /** Drawing a block whose drawn meshes use `img` (or none) onto a mesh
      that does keeps every `append` within its image assertion. */
  lemma DrawnBlockUsesImage(dest: MeshData, layer: RenderLayer, pos: Position, block: Block, sides: FaceArray<Block>,
                            img: Option<Addr>)
    requires UsesImage(dest, img) && DrawUsesImage(block, layer, sides, img)
    ensures UsesImage(DrawnBlock(dest, layer, pos, block, sides), img)
  {
    if block.descriptor.Some? && block.descriptor.value.renderLayer == layer {
      var center := TransformedCopy(block.descriptor.value.center, TranslateTo(pos));
      AppendedUsesImage(dest, center, img);
      RenderedFacesUsesImage(Appended(dest, center), 0, pos, block.descriptor, sides, img);
    }
  }

  /** The face fold written out: the six faces in order. */
  lemma RenderedFacesUnrolled(dest: MeshData, pos: Position, block: Option<BlockDescriptor>, sides: FaceArray<Block>)
    ensures RenderedFaces(dest, 0, pos, block, sides) ==
            var d1 := RenderedFace(dest, NX, pos, block, sides.nx.descriptor);
            var d2 := RenderedFace(d1, PX, pos, block, sides.px.descriptor);
            var d3 := RenderedFace(d2, NY, pos, block, sides.ny.descriptor);
            var d4 := RenderedFace(d3, PY, pos, block, sides.py.descriptor);
            var d5 := RenderedFace(d4, NZ, pos, block, sides.nz.descriptor);
            RenderedFace(d5, PZ, pos, block, sides.pz.descriptor)
  {
    var d1 := RenderedFace(dest, NX, pos, block, sides.nx.descriptor);
    var d2 := RenderedFace(d1, PX, pos, block, sides.px.descriptor);
    var d3 := RenderedFace(d2, NY, pos, block, sides.ny.descriptor);
    var d4 := RenderedFace(d3, PY, pos, block, sides.py.descriptor);
    var d5 := RenderedFace(d4, NZ, pos, block, sides.nz.descriptor);
    var d6 := RenderedFace(d5, PZ, pos, block, sides.pz.descriptor);
    assert RenderedFaces(d6, 6, pos, block, sides) == d6;
    assert RenderedFaces(d5, 5, pos, block, sides) == d6;
    assert RenderedFaces(d4, 4, pos, block, sides) == d6;
    assert RenderedFaces(d3, 3, pos, block, sides) == d6;
    assert RenderedFaces(d2, 2, pos, block, sides) == d6;
    assert RenderedFaces(d1, 1, pos, block, sides) == d6;
  }

  /** `RenderObjectBlock::draw` onto a `Mesh`. */
  method DrawBlock(block: Block, dest: Mesh, layer: RenderLayer, pos: Position,
                   nx: Block, px: Block, ny: Block, py: Block, nz: Block, pz: Block, ghost img: Option<Addr>)
    requires DrawUsesImage(block, layer, FaceArray(nx, px, ny, py, nz, pz), img) && UsesImage(dest.Data(), img)
    modifies dest
    ensures dest.Data() == DrawnBlock(old(dest.Data()), layer, pos, block, FaceArray(nx, px, ny, py, nz, pz))
    ensures UsesImage(dest.Data(), img)
  {
    if block.descriptor.None? || block.descriptor.value.renderLayer != layer {
      return;
    }
    var d := block.descriptor.value;
    var tform := TranslateTo(pos);
    FacesUseImageUnrolled(block.descriptor, FaceArray(nx, px, ny, py, nz, pz), img);
    dest.AppendTransformed(d.center, tform);
    RenderedFacesUnrolled(dest.Data(), pos, block.descriptor, FaceArray(nx, px, ny, py, nz, pz));
    RenderFace(NX, dest, pos, block.descriptor, nx.descriptor, img);
    RenderFace(PX, dest, pos, block.descriptor, px.descriptor, img);
    RenderFace(NY, dest, pos, block.descriptor, ny.descriptor, img);
    RenderFace(PY, dest, pos, block.descriptor, py.descriptor, img);
    RenderFace(NZ, dest, pos, block.descriptor, nz.descriptor, img);
    RenderFace(PZ, dest, pos, block.descriptor, pz.descriptor, img);
  }

  /** `renderFace` onto a `Mesh`. */
  method RenderFace(face: BlockFace, dest: Mesh, pos: Position, block: Option<BlockDescriptor>,
                    sideBlock: Option<BlockDescriptor>, ghost img: Option<Addr>)
    requires UsesImage(dest.Data(), img)
    requires NeedRenderFace(face, block, sideBlock) ==> UsesImage(block.value.faceMesh.Get(face), img)
    modifies dest
    ensures dest.Data() == RenderedFace(old(dest.Data()), face, pos, block, sideBlock)
    ensures UsesImage(dest.Data(), img)
  {
    if NeedRenderFace(face, block, sideBlock) {
      dest.AppendTransformed(block.value.faceMesh.Get(face), TranslateTo(pos));
    }
  }
}
