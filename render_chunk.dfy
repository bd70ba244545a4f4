/** `RenderObjectChunk` (include/render/render_object.h): a chunk's blocks,
    its per-layer and per-sub-chunk mesh caches with their validity flags,
    the invalidation that clears those flags, and the regeneration that
    rebuilds stale sub-chunk meshes and publishes one draw mesh per layer
    through a double buffer. Locks and atomics are plain fields here. */
module Chunks {
  import opened Wrappers
  import opened Variables
  import opened RenderLayers
  import opened Meshes
  import opened Cached
  import opened Blocks

  /** The per-layer arrays have one entry per drawable layer. */
  const LayerCount: int := 2

  /** The sub-chunks of one chunk, in one layer. */
  const SubChunkSlots: int := 64

  /** `n` cleared flags. */
  function Falses(n: nat): (s: seq<bool>)
    ensures |s| == n && forall i :: 0 <= i < n ==> !s[i]
  {
    if n == 0 then [] else Falses(n - 1) + [false]
  }

  /** One layer's sub-chunk flags, all cleared. */
  const NoFlags: seq<bool> := Falses(SubChunkSlots)

  /** The layer at a per-layer array index. */
  function LayerAt(li: int): (l: RenderLayer)
    requires 0 <= li < LayerCount
    ensures l != Last && l.Ord() == li
  {
    FromOrd(li)
  }

  /** A position inside a chunk, relative to its base. */
  predicate InChunk(x: int, y: int, z: int)
  {
    0 <= x < ChunkSize && 0 <= y < ChunkSize && 0 <= z < ChunkSize
  }

  /** A sub-chunk index along every axis. */
  predicate InSubChunks(i: int, j: int, k: int)
  {
    0 <= i < SubChunks && 0 <= j < SubChunks && 0 <= k < SubChunks
  }

  /** The corner, in blocks, of a sub-chunk. */
  predicate SubChunkCorner(sub: Vector)
  {
    InChunk(sub.x, sub.y, sub.z) && sub.x % SubChunkSize == 0 && sub.y % SubChunkSize == 0 && sub.z % SubChunkSize == 0
  }

  /** A sub-chunk's slot in the per-layer caches: x-major, then y, then z,
      the order the generation loops visit them in. */
  function CellIndex(i: int, j: int, k: int): (c: nat)
    requires InSubChunks(i, j, k)
    ensures c < SubChunkSlots
  {
    i * 16 + j * 4 + k
  }

  /** The cache slot of the sub-chunk holding the chunk-relative position
      `rel` (`rel >> subChunkSizeShiftAmount` on every axis). */
  function SubChunkOf(rel: Vector): (c: nat)
    requires InChunk(rel.x, rel.y, rel.z)
    ensures c < SubChunkSlots
  {
    CellIndex(rel.x / SubChunkSize, rel.y / SubChunkSize, rel.z / SubChunkSize)
  }

  /** The corner of the sub-chunk in slot `c`. */
  function SlotCorner(c: int): (sub: Vector)
    requires 0 <= c < SubChunkSlots
    ensures SubChunkCorner(sub)
  {
    Vector(SubChunkSize * (c / 16), SubChunkSize * (c / 4 % 4), SubChunkSize * (c % 4))
  }

  lemma SlotCornerOfIndex(i: int, j: int, k: int)
    requires InSubChunks(i, j, k)
    ensures SlotCorner(CellIndex(i, j, k)) == Vector(SubChunkSize * i, SubChunkSize * j, SubChunkSize * k)
  {
    var c := i * 16 + j * 4 + k;
    assert c / 16 == i && c % 16 == j * 4 + k;
    assert c / 4 == i * 4 + j && c % 4 == k;
  }

  /** The corner of sub-chunk `(i, j, k)` and back. */
  lemma CornerOfSubChunk(i: int, j: int, k: int)
    requires InSubChunks(i, j, k)
    ensures var sub := Vector(SubChunkSize * i, SubChunkSize * j, SubChunkSize * k);
            SubChunkCorner(sub) && sub.x / SubChunkSize == i && sub.y / SubChunkSize == j && sub.z / SubChunkSize == k
  {
  }

  /** The mesh `generateSubChunkDrawMeshes` returns for slot `c`, given the
      layer's flags and cached meshes and the meshes rebuilt from the blocks:
      the cached one when its flag is set, else the rebuilt one. */
  function Regenerated(valid: seq<bool>, meshes: seq<MeshData>, rebuilt: seq<MeshData>, c: int): MeshData
    requires |valid| == SubChunkSlots && |meshes| == SubChunkSlots && |rebuilt| == SubChunkSlots && 0 <= c < SubChunkSlots
  {
    if valid[c] then meshes[c] else rebuilt[c]
  }

  /** The meshes of slots `0` to `p - 1` appended in slot order, which is
      the order the generation loops visit the sub-chunks (x, then y, then z). */
  function RegenPrefix(valid: seq<bool>, meshes: seq<MeshData>, rebuilt: seq<MeshData>, p: int): MeshData
    requires |valid| == SubChunkSlots && |meshes| == SubChunkSlots && |rebuilt| == SubChunkSlots
    requires 0 <= p <= SubChunkSlots
  {
    if p == 0 then EmptyMesh
    else Appended(RegenPrefix(valid, meshes, rebuilt, p - 1), Regenerated(valid, meshes, rebuilt, p - 1))
  }

  /** One more slot appended. */
  lemma RegenPrefixStep(valid: seq<bool>, meshes: seq<MeshData>, rebuilt: seq<MeshData>, p: int)
    requires |valid| == SubChunkSlots && |meshes| == SubChunkSlots && |rebuilt| == SubChunkSlots
    requires 0 <= p < SubChunkSlots
    ensures RegenPrefix(valid, meshes, rebuilt, p + 1) == Appended(RegenPrefix(valid, meshes, rebuilt, p), Regenerated(valid, meshes, rebuilt, p))
  {
  }

  /** When every cached and every rebuilt sub-chunk mesh uses `img` or no
      image, so does each prefix of the layer mesh: no `append` of the
      generation loops trips its image assertion. */
  lemma {:induction false} RegenPrefixUsesImage(valid: seq<bool>, meshes: seq<MeshData>, rebuilt: seq<MeshData>, p: int,
                                                img: Option<Addr>)
    requires |valid| == SubChunkSlots && |meshes| == SubChunkSlots && |rebuilt| == SubChunkSlots
    requires 0 <= p <= SubChunkSlots
    requires forall c :: 0 <= c < SubChunkSlots ==> UsesImage(meshes[c], img) && UsesImage(rebuilt[c], img)
    ensures UsesImage(RegenPrefix(valid, meshes, rebuilt, p), img)
    decreases p
  {
    if p > 0 {
      RegenPrefixUsesImage(valid, meshes, rebuilt, p - 1, img);
      AppendedUsesImage(RegenPrefix(valid, meshes, rebuilt, p - 1), Regenerated(valid, meshes, rebuilt, p - 1), img);
    }
  }


  /** How far the generation of one layer has got: the slots before `p` are
      flagged valid and hold their regenerated mesh; the rest still hold what
      they held at the start (`v0`, `m0`). */
  predicate Progress(v0: seq<bool>, m0: seq<MeshData>, rebuilt: seq<MeshData>, valid: seq<bool>, meshes: seq<MeshData>, p: int)
    requires |v0| == SubChunkSlots && |m0| == SubChunkSlots && |rebuilt| == SubChunkSlots
  {
    |valid| == SubChunkSlots && |meshes| == SubChunkSlots &&
    forall c :: 0 <= c < SubChunkSlots ==>
      (c < p ==> valid[c] && meshes[c] == Regenerated(v0, m0, rebuilt, c)) &&
      (c >= p ==> valid[c] == v0[c] && meshes[c] == m0[c])
  }

  lemma CellIndexInjective(i: int, j: int, k: int, i': int, j': int, k': int)
    requires InSubChunks(i, j, k) && InSubChunks(i', j', k')
    ensures CellIndex(i, j, k) == CellIndex(i', j', k') <==> (i, j, k) == (i', j', k')
  {
  }

  /** Clearing the slot `SubChunkOf(rel)` clears exactly the sub-chunk
      `rel >> subChunkSizeShiftAmount` and keeps every other one. */
  lemma ClearSubChunk(flags: seq<bool>, rel: Vector, i: int, j: int, k: int)
    requires |flags| == SubChunkSlots && InChunk(rel.x, rel.y, rel.z) && InSubChunks(i, j, k)
    ensures flags[SubChunkOf(rel) := false][CellIndex(i, j, k)] ==
              (flags[CellIndex(i, j, k)] && (i, j, k) != (rel.x / SubChunkSize, rel.y / SubChunkSize, rel.z / SubChunkSize))
  {
    CellIndexInjective(i, j, k, rel.x / SubChunkSize, rel.y / SubChunkSize, rel.z / SubChunkSize);
  }

  /** The validity flags of one chunk: `meshesValid`, `cachedMeshValid`
      and `subChunkMeshesValid`. */
  datatype ChunkFlags = ChunkFlags(meshesValid: bool, cachedMeshValid: seq<bool>, subChunkValid: seq<seq<bool>>)

  /** One flag per layer and one per sub-chunk in every layer. */
  predicate FlagsFit(cf: ChunkFlags)
  {
    |cf.cachedMeshValid| == LayerCount && |cf.subChunkValid| == LayerCount &&
    forall li :: 0 <= li < LayerCount ==> |cf.subChunkValid[li]| == SubChunkSlots
  }

  /** The flags of a freshly made or fully invalidated chunk. */
  const Cleared: ChunkFlags := ChunkFlags(false, [false, false], [NoFlags, NoFlags])

  /** The flags after `invalidateMeshes(position)`, with `c` the slot of the
      sub-chunk holding `position`: the chunk-wide flags and, in every layer,
      that one sub-chunk flag cleared. */
  function ClearedSub(cf: ChunkFlags, c: int): (r: ChunkFlags)
    requires FlagsFit(cf) && 0 <= c < SubChunkSlots
    ensures FlagsFit(r)
  {
    ChunkFlags(false, [false, false], [cf.subChunkValid[0][c := false], cf.subChunkValid[1][c := false]])
  }

  /** The meshes one chunk holds: its draw meshes and its sub-chunk meshes. */
  datatype ChunkMeshes = ChunkMeshes(drawMesh: seq<CellState<MeshData>>, subChunkMeshes: seq<seq<MeshData>>)

  /** A sub-chunk's four blocks along each axis stay inside the chunk. */
  lemma CornerRoom(sub: Vector)
    requires SubChunkCorner(sub)
    ensures sub.x + SubChunkSize <= ChunkSize && sub.y + SubChunkSize <= ChunkSize && sub.z + SubChunkSize <= ChunkSize
    ensures InSubChunks(sub.x / SubChunkSize, sub.y / SubChunkSize, sub.z / SubChunkSize)
    ensures sub == Vector(SubChunkSize * (sub.x / SubChunkSize), SubChunkSize * (sub.y / SubChunkSize), SubChunkSize * (sub.z / SubChunkSize))
  {
    assert sub.x == 4 * (sub.x / 4) && sub.y == 4 * (sub.y / 4) && sub.z == 4 * (sub.z / 4);
  }

  /** The block arrays of the six chunks next to a chunk, each possibly
      absent (a null `shared_ptr<RenderObjectChunk>`). */
  datatype Neighbours = Neighbours(nx: array3?<Block>, px: array3?<Block>, ny: array3?<Block>,
                                   py: array3?<Block>, nz: array3?<Block>, pz: array3?<Block>)
  {
    /** The neighbour across `face`. */
    function Get(face: BlockFace): array3?<Block>
    {
      match face
      case NX => nx
      case PX => px
      case NY => ny
      case PY => py
      case NZ => nz
      case PZ => pz
    }
  }

  /** A block array of a whole chunk. */
  predicate ChunkShaped(a: array3<Block>)
  {
    a.Length0 == ChunkSize && a.Length1 == ChunkSize && a.Length2 == ChunkSize
  }

  predicate NeighboursShaped(nbrs: Neighbours)
  {
    (nbrs.nx != null ==> ChunkShaped(nbrs.nx)) && (nbrs.px != null ==> ChunkShaped(nbrs.px)) &&
    (nbrs.ny != null ==> ChunkShaped(nbrs.ny)) && (nbrs.py != null ==> ChunkShaped(nbrs.py)) &&
    (nbrs.nz != null ==> ChunkShaped(nbrs.nz)) && (nbrs.pz != null ==> ChunkShaped(nbrs.pz))
  }

  /** A coordinate one step outside a chunk, moved into the neighbour. */
  function Wrap(v: int): (r: int)
    requires -1 <= v <= ChunkSize
    ensures 0 <= r < ChunkSize && (0 <= v < ChunkSize ==> r == v)
  {
    if v < 0 then ChunkSize - 1 else if v >= ChunkSize then 0 else v
  }

  class RenderObjectChunk {
    /** `blockChunk.basePosition`. */
    const basePosition: Position
    /** `blockChunk.blocks`. */
    const blocks: array3<Block>
    /** `cachedMeshValid`, one flag per layer. */
    var cachedMeshValid: seq<bool>
    /** `subChunkMeshesValid[layer][x][y][z]`, each layer's flags in
        `CellIndex` order. */
    var subChunkValid: seq<seq<bool>>
    /** `subChunkMeshes[layer][x][y][z]`, laid out the same way. */
    var subChunkMeshes: seq<seq<MeshData>>
    /** `drawMesh`: one double-buffered mesh per layer. */
    var drawMesh: seq<CellState<MeshData>>
    /** `meshesValid`. */
    var meshesValid: bool

    /** The block array holds a whole chunk; it is never replaced. */
    predicate Shaped()
    {
      ChunkShaped(blocks)
    }

    /** One entry per layer in every per-layer field, one per sub-chunk in
        every per-sub-chunk cache, and every draw mesh a valid buffer pair. */
    predicate Valid()
      reads this
    {
      Shaped() && |cachedMeshValid| == LayerCount && |drawMesh| == LayerCount &&
      |subChunkValid| == LayerCount && |subChunkMeshes| == LayerCount &&
      (forall li :: 0 <= li < LayerCount ==> drawMesh[li].Valid()) &&
      (forall li :: 0 <= li < LayerCount ==> |subChunkValid[li]| == SubChunkSlots && |subChunkMeshes[li]| == SubChunkSlots)
    }

    /** The chunk's validity flags, as one value. */
    ghost function Flags(): (cf: ChunkFlags)
      requires Valid()
      reads this
      ensures FlagsFit(cf)
    {
      ChunkFlags(meshesValid, cachedMeshValid, subChunkValid)
    }

    /** The chunk's meshes, as one value. */
    ghost function Meshes(): ChunkMeshes
      reads this
    {
      ChunkMeshes(drawMesh, subChunkMeshes)
    }

    /** Everything the chunk's methods may change. */
    ghost function Footprint(): set<object>
    {
      {this, blocks}
    }

    /** `RenderObjectChunk(position)`: empty blocks and every flag false. */
    constructor (position: Position)
      ensures Valid() && basePosition == position && fresh(blocks)
      ensures forall x, y, z :: InChunk(x, y, z) ==> blocks[x, y, z] == EmptyBlock
      ensures Flags() == Cleared
      ensures forall li, c :: 0 <= li < LayerCount && 0 <= c < SubChunkSlots ==> subChunkMeshes[li][c] == EmptyMesh
      ensures forall li :: 0 <= li < LayerCount ==> drawMesh[li] == CellState(0, EmptyMesh, EmptyMesh)
    {
      basePosition := position;
      blocks := new Block[ChunkSize, ChunkSize, ChunkSize]((x, y, z) => EmptyBlock);
      cachedMeshValid := [false, false];
      var noMeshes := seq(SubChunkSlots, c => EmptyMesh);
      subChunkValid := [NoFlags, NoFlags];
      subChunkMeshes := [noMeshes, noMeshes];
      drawMesh := [CellState(0, EmptyMesh, EmptyMesh), CellState(0, EmptyMesh, EmptyMesh)];
      meshesValid := false;
    }

    /** `invalidateMeshes()`: every flag cleared; the meshes stay. */
    method InvalidateMeshes()
      requires Valid()
      modifies this
      ensures Valid() && Flags() == Cleared && Meshes() == old(Meshes())
    {
      meshesValid := false;
      cachedMeshValid := [false, false];
      subChunkValid := [NoFlags, NoFlags];
    }

    /** `invalidateMeshes(position)`: the chunk-wide flags cleared and, in
        every layer, only the flag of the sub-chunk holding `position`. */
    method InvalidateMeshesAt(position: Position)
      requires Valid()
      requires position.d == basePosition.d
      requires var rel := position.Minus(basePosition); InChunk(rel.x, rel.y, rel.z)
      modifies this
      ensures Valid() && Flags() == ClearedSub(old(Flags()), SubChunkOf(position.Minus(basePosition)))
      ensures Meshes() == old(Meshes())
    {
      meshesValid := false;
      cachedMeshValid := [false, false];
      var rel := position.Minus(basePosition);
      var c := CellIndex(rel.x / SubChunkSize, rel.y / SubChunkSize, rel.z / SubChunkSize);
      var flags := subChunkValid;
      for li := 0 to LayerCount
        invariant |flags| == LayerCount
        invariant forall l :: 0 <= l < LayerCount ==> |flags[l]| == SubChunkSlots
        invariant forall l :: 0 <= l < LayerCount ==>
                    flags[l] == if l < li then subChunkValid[l][c := false] else subChunkValid[l]
      {
        flags := flags[li := flags[li][c := false]];
      }
      assert flags == [subChunkValid[0][c := false], subChunkValid[1][c := false]];
      subChunkValid := flags;
    }

    /** `generateSubChunkDrawMeshes`'s choice of the block next to
        `(x, y, z)` across `face`. */
    function SideBlock(face: BlockFace, x: int, y: int, z: int, nbrs: Neighbours): Block
      requires Shaped() && NeighboursShaped(nbrs) && InChunk(x, y, z)
      reads blocks, nbrs.nx, nbrs.px, nbrs.ny, nbrs.py, nbrs.nz, nbrs.pz
    {
      match face
      case NX => if x <= 0 then (if nbrs.nx != null then nbrs.nx[ChunkSize - 1, y, z] else EmptyBlock) else blocks[x - 1, y, z]
      case NY => if y <= 0 then (if nbrs.ny != null then nbrs.ny[x, ChunkSize - 1, z] else EmptyBlock) else blocks[x, y - 1, z]
      case NZ => if z <= 0 then (if nbrs.nz != null then nbrs.nz[x, y, ChunkSize - 1] else EmptyBlock) else blocks[x, y, z - 1]
      case PX => if x >= ChunkSize - 1 then (if nbrs.px != null then nbrs.px[0, y, z] else EmptyBlock) else blocks[x + 1, y, z]
      case PY => if y >= ChunkSize - 1 then (if nbrs.py != null then nbrs.py[x, 0, z] else EmptyBlock) else blocks[x, y + 1, z]
      case PZ => if z >= ChunkSize - 1 then (if nbrs.pz != null then nbrs.pz[x, y, 0] else EmptyBlock) else blocks[x, y, z + 1]
    }

    /** The side block is the block one step across `face`: in this chunk
        when that step stays inside it; otherwise at the opposite edge of
        the neighbour on that side, or the empty block when there is none. */
    lemma SideBlockLookup(face: BlockFace, x: int, y: int, z: int, nbrs: Neighbours)
      requires Shaped() && NeighboursShaped(nbrs) && InChunk(x, y, z)
      ensures var d := Delta(face);
              InChunk(x + d.x, y + d.y, z + d.z) ==> SideBlock(face, x, y, z, nbrs) == blocks[x + d.x, y + d.y, z + d.z]
      ensures var d := Delta(face);
              !InChunk(x + d.x, y + d.y, z + d.z) && nbrs.Get(face) == null ==> SideBlock(face, x, y, z, nbrs) == EmptyBlock
      ensures var d := Delta(face);
              !InChunk(x + d.x, y + d.y, z + d.z) && nbrs.Get(face) != null ==>
                SideBlock(face, x, y, z, nbrs) == nbrs.Get(face)[Wrap(x + d.x), Wrap(y + d.y), Wrap(z + d.z)]
    {
      match face
      case NX =>
      case NY =>
      case NZ =>
      case PX =>
      case PY =>
      case PZ =>
    }

    function Sides(x: int, y: int, z: int, nbrs: Neighbours): FaceArray<Block>
      requires Shaped() && NeighboursShaped(nbrs) && InChunk(x, y, z)
      reads blocks, nbrs.nx, nbrs.px, nbrs.ny, nbrs.py, nbrs.nz, nbrs.pz
    {
      FaceArray(SideBlock(NX, x, y, z, nbrs), SideBlock(PX, x, y, z, nbrs), SideBlock(NY, x, y, z, nbrs),
                SideBlock(PY, x, y, z, nbrs), SideBlock(NZ, x, y, z, nbrs), SideBlock(PZ, x, y, z, nbrs))
    }

    /** `mesh` with the blocks `(x, y, z0)` to `(x, y, z - 1)` drawn onto
        it in order, each with its six side blocks. */
    function RowDrawn(mesh: MeshData, layer: RenderLayer, nbrs: Neighbours, x: int, y: int, z0: int, z: int): MeshData
      requires Shaped() && NeighboursShaped(nbrs) && InChunk(x, y, z0) && z0 <= z <= ChunkSize
      reads blocks, nbrs.nx, nbrs.px, nbrs.ny, nbrs.py, nbrs.nz, nbrs.pz
      decreases z - z0
    {
      if z == z0 then mesh
      else
        DrawnBlock(RowDrawn(mesh, layer, nbrs, x, y, z0, z - 1), layer, basePosition.Plus(Vector(x, y, z - 1)),
                   blocks[x, y, z - 1], Sides(x, y, z - 1, nbrs))
    }

    /** `mesh` with the rows `sub.y` to `y - 1` of column `x` of the
        sub-chunk at `sub` drawn onto it. */
    function SlabDrawn(mesh: MeshData, layer: RenderLayer, sub: Vector, nbrs: Neighbours, x: int, y: int): MeshData
      requires Shaped() && NeighboursShaped(nbrs) && SubChunkCorner(sub)
      requires sub.x <= x < sub.x + SubChunkSize && sub.y <= y <= sub.y + SubChunkSize
      reads blocks, nbrs.nx, nbrs.px, nbrs.ny, nbrs.py, nbrs.nz, nbrs.pz
      decreases y - sub.y
    {
      if y == sub.y then mesh
      else
        CornerRoom(sub);
        RowDrawn(SlabDrawn(mesh, layer, sub, nbrs, x, y - 1), layer, nbrs, x, y - 1, sub.z, sub.z + SubChunkSize)
    }

    /** The columns `sub.x` to `x - 1` of the sub-chunk at `sub` drawn onto
        an empty mesh. */
    function BoxDrawn(layer: RenderLayer, sub: Vector, nbrs: Neighbours, x: int): MeshData
      requires Shaped() && NeighboursShaped(nbrs) && SubChunkCorner(sub) && sub.x <= x <= sub.x + SubChunkSize
      reads blocks, nbrs.nx, nbrs.px, nbrs.ny, nbrs.py, nbrs.nz, nbrs.pz
      decreases x - sub.x
    {
      if x == sub.x then EmptyMesh
      else SlabDrawn(BoxDrawn(layer, sub, nbrs, x - 1), layer, sub, nbrs, x - 1, sub.y + SubChunkSize)
    }

    /** The mesh `generateSubChunkDrawMeshes` builds for the sub-chunk with
        corner `sub`: its blocks drawn x-major, then y, then z. */
    function SubChunkMesh(layer: RenderLayer, sub: Vector, nbrs: Neighbours): MeshData
      requires Shaped() && NeighboursShaped(nbrs) && SubChunkCorner(sub)
      reads blocks, nbrs.nx, nbrs.px, nbrs.ny, nbrs.py, nbrs.nz, nbrs.pz
    {
      BoxDrawn(layer, sub, nbrs, sub.x + SubChunkSize)
    }

    /** The block at `(x, y, z)`; the image invariant below is stated over
        it so that it is instantiated only where a block is drawn. */
    ghost function BlockAt(x: int, y: int, z: int): Block
      requires Shaped() && InChunk(x, y, z)
      reads blocks
    {
      blocks[x, y, z]
    }

    /** Every block mesh uses the image `img` or none. */
    ghost predicate BlocksUseImage(img: Option<Addr>)
      requires Shaped()
      reads blocks
    {
      forall x, y, z {:trigger BlockAt(x, y, z)} :: InChunk(x, y, z) ==> BlockUsesImage(BlockAt(x, y, z), img)
    }

    /** When every block uses `img` or no image, so does every mesh the
        block loops build: no `append` in them trips its image assertion. */
    lemma {:induction false} RowDrawnUsesImage(mesh: MeshData, layer: RenderLayer, nbrs: Neighbours, x: int, y: int, z0: int, z: int,
                                               img: Option<Addr>)
      requires Shaped() && NeighboursShaped(nbrs) && InChunk(x, y, z0) && z0 <= z <= ChunkSize
      requires BlocksUseImage(img) && UsesImage(mesh, img)
      ensures UsesImage(RowDrawn(mesh, layer, nbrs, x, y, z0, z), img)
      decreases z - z0
    {
      if z > z0 {
        RowDrawnUsesImage(mesh, layer, nbrs, x, y, z0, z - 1, img);
        assert BlockUsesImage(BlockAt(x, y, z - 1), img);
        BlockDrawUsesImage(blocks[x, y, z - 1], layer, Sides(x, y, z - 1, nbrs), img);
        DrawnBlockUsesImage(RowDrawn(mesh, layer, nbrs, x, y, z0, z - 1), layer, basePosition.Plus(Vector(x, y, z - 1)),
                            blocks[x, y, z - 1], Sides(x, y, z - 1, nbrs), img);
      }
    }

    lemma {:induction false} SlabDrawnUsesImage(mesh: MeshData, layer: RenderLayer, sub: Vector, nbrs: Neighbours, x: int, y: int,
                                                img: Option<Addr>)
      requires Shaped() && NeighboursShaped(nbrs) && SubChunkCorner(sub)
      requires sub.x <= x < sub.x + SubChunkSize && sub.y <= y <= sub.y + SubChunkSize
      requires BlocksUseImage(img) && UsesImage(mesh, img)
      ensures UsesImage(SlabDrawn(mesh, layer, sub, nbrs, x, y), img)
      decreases y - sub.y
    {
      if y > sub.y {
        CornerRoom(sub);
        SlabDrawnUsesImage(mesh, layer, sub, nbrs, x, y - 1, img);
        RowDrawnUsesImage(SlabDrawn(mesh, layer, sub, nbrs, x, y - 1), layer, nbrs, x, y - 1, sub.z, sub.z + SubChunkSize, img);
      }
    }

    lemma {:induction false} BoxDrawnUsesImage(layer: RenderLayer, sub: Vector, nbrs: Neighbours, x: int, img: Option<Addr>)
      requires Shaped() && NeighboursShaped(nbrs) && SubChunkCorner(sub) && sub.x <= x <= sub.x + SubChunkSize
      requires BlocksUseImage(img)
      ensures UsesImage(BoxDrawn(layer, sub, nbrs, x), img)
      decreases x - sub.x
    {
      if x > sub.x {
        BoxDrawnUsesImage(layer, sub, nbrs, x - 1, img);
        SlabDrawnUsesImage(BoxDrawn(layer, sub, nbrs, x - 1), layer, sub, nbrs, x - 1, sub.y + SubChunkSize, img);
      }
    }

    /** The block loops of `generateSubChunkDrawMeshes`: every block of the
        sub-chunk, with its six side blocks, drawn onto the cleared mesh. */
    method DrawSubChunk(layer: RenderLayer, sub: Vector, nbrs: Neighbours) returns (mesh: MeshData)
      requires Shaped() && NeighboursShaped(nbrs) && SubChunkCorner(sub)
      ensures mesh == SubChunkMesh(layer, sub, nbrs)
    {
      CornerRoom(sub);
      mesh := EmptyMesh;
      var dx := sub.x;
      while dx < sub.x + SubChunkSize
        invariant sub.x <= dx <= sub.x + SubChunkSize
        invariant mesh == BoxDrawn(layer, sub, nbrs, dx)
      {
        ghost var box := mesh;
        var dy := sub.y;
        while dy < sub.y + SubChunkSize
          invariant sub.y <= dy <= sub.y + SubChunkSize
          invariant mesh == SlabDrawn(box, layer, sub, nbrs, dx, dy)
        {
          ghost var slab := mesh;
          var dz := sub.z;
          while dz < sub.z + SubChunkSize
            invariant sub.z <= dz <= sub.z + SubChunkSize
            invariant mesh == RowDrawn(slab, layer, nbrs, dx, dy, sub.z, dz)
          {
            var pos := basePosition.Plus(Vector(dx, dy, dz));
            var bnx, bny, bnz := SideBlock(NX, dx, dy, dz, nbrs), SideBlock(NY, dx, dy, dz, nbrs), SideBlock(NZ, dx, dy, dz, nbrs);
            var bpx, bpy, bpz := SideBlock(PX, dx, dy, dz, nbrs), SideBlock(PY, dx, dy, dz, nbrs), SideBlock(PZ, dx, dy, dz, nbrs);
            mesh := DrawnBlock(mesh, layer, pos, blocks[dx, dy, dz], FaceArray(bnx, bpx, bny, bpy, bnz, bpz));
            dz := dz + 1;
          }
          dy := dy + 1;
        }
        dx := dx + 1;
      }
    }

    /** `rebuilt` holds, slot by slot, the mesh every sub-chunk of `layer`
        gets when it is rebuilt from the blocks now. */
    ghost predicate RebuiltFrom(rebuilt: seq<MeshData>, layer: RenderLayer, nbrs: Neighbours)
      requires Shaped() && NeighboursShaped(nbrs)
      reads blocks, nbrs.nx, nbrs.px, nbrs.ny, nbrs.py, nbrs.nz, nbrs.pz
    {
      |rebuilt| == SubChunkSlots &&
      forall c {:trigger SlotCorner(c)} :: 0 <= c < SubChunkSlots ==> rebuilt[c] == SubChunkMesh(layer, SlotCorner(c), nbrs)
    }

    /** The rebuilt meshes of `layer`, by slot. */
    ghost function FreshMeshes(layer: RenderLayer, nbrs: Neighbours): (f: seq<MeshData>)
      requires Shaped() && NeighboursShaped(nbrs)
      reads blocks, nbrs.nx, nbrs.px, nbrs.ny, nbrs.py, nbrs.nz, nbrs.pz
      ensures RebuiltFrom(f, layer, nbrs)
    {
      seq(SubChunkSlots, c requires 0 <= c < SubChunkSlots reads blocks, nbrs.nx, nbrs.px, nbrs.ny, nbrs.py, nbrs.nz, nbrs.pz =>
        SubChunkMesh(layer, SlotCorner(c), nbrs))
    }

    /** `generateSubChunkDrawMeshes` on one layer's flags and cached meshes
        (`valid`, `meshes`): the cached mesh when the sub-chunk's flag is set;
        otherwise the mesh rebuilt from the blocks, which is stored, and the
        flag set. No other slot changes. `rebuilt` names the rebuilt meshes
        of the layer's sub-chunks (see `RebuiltFrom`). */
    method GenerateSubChunkDrawMeshes(layer: RenderLayer, sub: Vector, nbrs: Neighbours,
                                      valid: seq<bool>, meshes: seq<MeshData>, ghost rebuilt: seq<MeshData>)
      returns (m: MeshData, valid': seq<bool>, meshes': seq<MeshData>)
      requires Shaped() && NeighboursShaped(nbrs) && SubChunkCorner(sub)
      requires |valid| == SubChunkSlots && |meshes| == SubChunkSlots && RebuiltFrom(rebuilt, layer, nbrs)
      ensures var c := CellIndex(sub.x / SubChunkSize, sub.y / SubChunkSize, sub.z / SubChunkSize);
              m == (if valid[c] then meshes[c] else rebuilt[c]) &&
              valid' == valid[c := true] && meshes' == meshes[c := m]
    {
      CornerRoom(sub);
      var c := CellIndex(sub.x / SubChunkSize, sub.y / SubChunkSize, sub.z / SubChunkSize);
      if valid[c] {
        m := meshes[c];
        return m, valid[c := true], meshes[c := m];
      }
      m := DrawSubChunk(layer, sub, nbrs);
      SlotCornerOfIndex(sub.x / SubChunkSize, sub.y / SubChunkSize, sub.z / SubChunkSize);
      assert SlotCorner(c) == sub;
      valid', meshes' := valid[c := true], meshes[c := m];
    }

    /** The rebuilt meshes of a layer are determined by the blocks and the
        neighbours: two sequences that both satisfy `RebuiltFrom` are equal. */
    lemma RebuiltUnique(a: seq<MeshData>, b: seq<MeshData>, layer: RenderLayer, nbrs: Neighbours)
      requires Shaped() && NeighboursShaped(nbrs)
      requires RebuiltFrom(a, layer, nbrs) && RebuiltFrom(b, layer, nbrs)
      ensures a == b
    {
      forall c | 0 <= c < SubChunkSlots
        ensures a[c] == b[c]
      {
        var corner := SlotCorner(c);
      }
    }

    /** The sub-chunk loops of `generateDrawMeshes` for one layer, on that
        layer's flags and cached meshes: every sub-chunk regenerated in slot
        order and appended onto the cleared mesh. */
    method BuildLayerMesh(layer: RenderLayer, nbrs: Neighbours, valid0: seq<bool>, meshes0: seq<MeshData>,
                          ghost rebuilt: seq<MeshData>)
      returns (mesh: MeshData, valid: seq<bool>, meshes: seq<MeshData>)
      requires Shaped() && NeighboursShaped(nbrs) && RebuiltFrom(rebuilt, layer, nbrs)
      requires |valid0| == SubChunkSlots && |meshes0| == SubChunkSlots
      ensures mesh == RegenPrefix(valid0, meshes0, rebuilt, SubChunkSlots)
      ensures Progress(valid0, meshes0, rebuilt, valid, meshes, SubChunkSlots)
    {
      mesh, valid, meshes := EmptyMesh, valid0, meshes0;
      var dx := 0;
      ghost var i, p := 0, 0;
      while dx < ChunkSize
        invariant 0 <= i <= SubChunks && dx == SubChunkSize * i && p == i * 16
        invariant Progress(valid0, meshes0, rebuilt, valid, meshes, p)
        invariant mesh == RegenPrefix(valid0, meshes0, rebuilt, p)
      {
        mesh, valid, meshes := BuildSlab(layer, nbrs, dx, i, p, valid0, meshes0, rebuilt, mesh, valid, meshes);
        dx := dx + SubChunkSize;
        i, p := i + 1, p + 16;
      }
    }

    /** The `dy` and `dz` loops for one `dx`: the sub-chunks `(i, _, _)`,
        slots `p0` to `p0 + 15`. */
    method BuildSlab(layer: RenderLayer, nbrs: Neighbours, dx: int, ghost i: int, ghost p0: int,
                     valid0: seq<bool>, meshes0: seq<MeshData>, ghost rebuilt: seq<MeshData>,
                     mesh0: MeshData, v: seq<bool>, ms: seq<MeshData>)
      returns (mesh: MeshData, valid: seq<bool>, meshes: seq<MeshData>)
      requires Shaped() && NeighboursShaped(nbrs) && RebuiltFrom(rebuilt, layer, nbrs)
      requires |valid0| == SubChunkSlots && |meshes0| == SubChunkSlots
      requires 0 <= i < SubChunks && dx == SubChunkSize * i && p0 == i * 16
      requires Progress(valid0, meshes0, rebuilt, v, ms, p0) && mesh0 == RegenPrefix(valid0, meshes0, rebuilt, p0)
      ensures Progress(valid0, meshes0, rebuilt, valid, meshes, p0 + 16)
      ensures mesh == RegenPrefix(valid0, meshes0, rebuilt, p0 + 16)
    {
      mesh, valid, meshes := mesh0, v, ms;
      var dy := 0;
      ghost var j, p := 0, p0;
      while dy < ChunkSize
        invariant 0 <= j <= SubChunks && dy == SubChunkSize * j && p == p0 + j * 4
        invariant Progress(valid0, meshes0, rebuilt, valid, meshes, p)
        invariant mesh == RegenPrefix(valid0, meshes0, rebuilt, p)
      {
        mesh, valid, meshes := BuildRow(layer, nbrs, dx, dy, i, j, p, valid0, meshes0, rebuilt, mesh, valid, meshes);
        dy := dy + SubChunkSize;
        j, p := j + 1, p + 4;
      }
    }

    /** The `dz` loop for one `dx` and `dy`: the sub-chunks `(i, j, _)`,
        slots `p0` to `p0 + 3`. Its `append`s build a prefix of
        `RegenPrefix`, so `RegenPrefixUsesImage` is what keeps their image
        assertion. */
    method BuildRow(layer: RenderLayer, nbrs: Neighbours, dx: int, dy: int, ghost i: int, ghost j: int, ghost p0: int,
                    valid0: seq<bool>, meshes0: seq<MeshData>, ghost rebuilt: seq<MeshData>,
                    mesh0: MeshData, v: seq<bool>, ms: seq<MeshData>)
      returns (mesh: MeshData, valid: seq<bool>, meshes: seq<MeshData>)
      requires Shaped() && NeighboursShaped(nbrs) && RebuiltFrom(rebuilt, layer, nbrs)
      requires |valid0| == SubChunkSlots && |meshes0| == SubChunkSlots
      requires InSubChunks(i, j, 0) && dx == SubChunkSize * i && dy == SubChunkSize * j && p0 == CellIndex(i, j, 0)
      requires Progress(valid0, meshes0, rebuilt, v, ms, p0) && mesh0 == RegenPrefix(valid0, meshes0, rebuilt, p0)
      ensures Progress(valid0, meshes0, rebuilt, valid, meshes, p0 + 4)
      ensures mesh == RegenPrefix(valid0, meshes0, rebuilt, p0 + 4)
    {
      mesh, valid, meshes := mesh0, v, ms;
      var dz := 0;
      ghost var k, p := 0, p0;
      while dz < ChunkSize
        invariant 0 <= k <= SubChunks && dz == SubChunkSize * k && p == p0 + k
        invariant Progress(valid0, meshes0, rebuilt, valid, meshes, p)
        invariant mesh == RegenPrefix(valid0, meshes0, rebuilt, p)
      {
        CornerOfSubChunk(i, j, k);
        assert CellIndex(i, j, k) == p;
        var m;
        m, valid, meshes := GenerateSubChunkDrawMeshes(layer, Vector(dx, dy, dz), nbrs, valid, meshes, rebuilt);
        assert m == Regenerated(valid0, meshes0, rebuilt, p);
        RegenPrefixStep(valid0, meshes0, rebuilt, p);
        mesh := Appended(mesh, m);
        dz := dz + SubChunkSize;
        k, p := k + 1, p + 1;
      }
    }

    /** `generateDrawMeshes`: nothing when the draw meshes are already
        valid; otherwise, for each layer, the layer mesh is written to the
        draw mesh's pending buffer and published, every sub-chunk cache of
        the layer is brought up to date and flagged valid, and the cached
        GPU mesh is marked stale. */
    method GenerateDrawMeshes(nbrs: Neighbours, ghost rebuilt: seq<seq<MeshData>>) returns (generated: bool)
      requires Valid() && NeighboursShaped(nbrs)
      requires |rebuilt| == LayerCount && forall li :: 0 <= li < LayerCount ==> |rebuilt[li]| == SubChunkSlots && RebuiltFrom(rebuilt[li], LayerAt(li), nbrs)
      modifies this
      ensures Valid() && meshesValid && generated == !old(meshesValid)
      ensures old(meshesValid) ==>
                drawMesh == old(drawMesh) && cachedMeshValid == old(cachedMeshValid) &&
                subChunkValid == old(subChunkValid) && subChunkMeshes == old(subChunkMeshes)
      ensures !old(meshesValid) ==>
                forall li :: 0 <= li < LayerCount ==>
                  !cachedMeshValid[li] &&
                  drawMesh[li] == old(drawMesh[li]).Write(RegenPrefix(old(subChunkValid[li]), old(subChunkMeshes[li]), rebuilt[li], SubChunkSlots)) &&
                  GetDrawMesh(LayerAt(li)) == RegenPrefix(old(subChunkValid[li]), old(subChunkMeshes[li]), rebuilt[li], SubChunkSlots) &&
                  Progress(old(subChunkValid[li]), old(subChunkMeshes[li]), rebuilt[li], subChunkValid[li], subChunkMeshes[li], SubChunkSlots)
    {
      if meshesValid {
        return false;
      }
      for li := 0 to LayerCount
        invariant Valid() && !meshesValid
        invariant forall l :: li <= l < LayerCount ==>
                    drawMesh[l] == old(drawMesh[l]) && subChunkValid[l] == old(subChunkValid[l]) &&
                    subChunkMeshes[l] == old(subChunkMeshes[l])
        invariant forall l :: 0 <= l < li ==>
                    !cachedMeshValid[l] &&
                    drawMesh[l] == old(drawMesh[l]).Write(RegenPrefix(old(subChunkValid[l]), old(subChunkMeshes[l]), rebuilt[l], SubChunkSlots)) &&
                    Progress(old(subChunkValid[l]), old(subChunkMeshes[l]), rebuilt[l], subChunkValid[l], subChunkMeshes[l], SubChunkSlots)
      {
        RegenerateLayer(li, nbrs, rebuilt[li]);
      }
      meshesValid := true;
      return true;
    }

    /** One iteration of `generateDrawMeshes`' layer loop: the layer's
        sub-chunk meshes regenerated into the cleared write slot of its draw
        mesh, the slots swapped and the layer's cached mesh marked stale;
        every other layer is left alone. */
    method RegenerateLayer(li: nat, nbrs: Neighbours, ghost rebuilt: seq<MeshData>)
      requires Valid() && NeighboursShaped(nbrs) && li < LayerCount
      requires RebuiltFrom(rebuilt, LayerAt(li), nbrs)
      modifies this
      ensures Valid() && meshesValid == old(meshesValid)
      ensures drawMesh == old(drawMesh)[li := old(drawMesh[li]).Write(RegenPrefix(old(subChunkValid[li]), old(subChunkMeshes[li]), rebuilt, SubChunkSlots))]
      ensures cachedMeshValid == old(cachedMeshValid)[li := false]
      ensures subChunkValid == old(subChunkValid)[li := subChunkValid[li]]
      ensures subChunkMeshes == old(subChunkMeshes)[li := subChunkMeshes[li]]
      ensures Progress(old(subChunkValid[li]), old(subChunkMeshes[li]), rebuilt, subChunkValid[li], subChunkMeshes[li], SubChunkSlots)
    {
      var mesh, valid, meshes := BuildLayerMesh(LayerAt(li), nbrs, subChunkValid[li], subChunkMeshes[li], rebuilt);
      drawMesh := drawMesh[li := drawMesh[li].StorePending(mesh).FinishWrite()];
      subChunkValid := subChunkValid[li := valid];
      subChunkMeshes := subChunkMeshes[li := meshes];
      cachedMeshValid := cachedMeshValid[li := false];
    }

    /** `getDrawMesh`: the published draw mesh of `layer`. */
    function GetDrawMesh(layer: RenderLayer): MeshData
      requires Valid() && layer != Last
      reads this
    {
      drawMesh[layer.Ord()].Read()
    }
  }
}
