/** `RenderObjectWorld` (include/render/render_object.h): the map from chunk
    base positions to chunks, block lookup and update across chunks, and the
    way a change to one block invalidates the cached meshes of the
    sub-chunks that can see it. */
module World {
  import opened Wrappers
  import opened StreamCodec
  import opened RenderLayers
  import opened Meshes
  import opened Cached
  import opened Blocks
  import opened Chunks

  // ---------------------------------------------------------------------------
  // The validity flags of one chunk under a sequence of invalidations

  /** `invalidateChunkMeshes(q)` as seen by the chunk at `b`: when `q` lies
      in it, its chunk-wide flags and, in every layer, the flag of the
      sub-chunk holding `q` are cleared; otherwise nothing changes. */
  function ClearedBy(cf: ChunkFlags, b: Position, q: Position): (r: ChunkFlags)
    requires FlagsFit(cf)
    ensures FlagsFit(r)
  {
    if ChunkBase(q) == b then ClearedSub(cf, SubChunkOf(ChunkRelative(q))) else cf
  }

  /** `ClearedBy` for every position of `qs`, in order. */
  function ClearedByAll(cf: ChunkFlags, b: Position, qs: seq<Position>): (r: ChunkFlags)
    requires FlagsFit(cf)
    ensures FlagsFit(r)
  {
    if qs == [] then cf else ClearedBy(ClearedByAll(cf, b, qs[..|qs| - 1]), b, qs[|qs| - 1])
  }

  /** One more position of `qs` applied. */
  lemma ClearedByAllSnoc(cf: ChunkFlags, b: Position, qs: seq<Position>, n: nat)
    requires FlagsFit(cf) && n < |qs|
    ensures ClearedByAll(cf, b, qs[..n + 1]) == ClearedBy(ClearedByAll(cf, b, qs[..n]), b, qs[n])
  {
    assert qs[..n + 1][..n] == qs[..n];
  }

  /** No position of `qs` lies in the sub-chunk `c` of the chunk at `b`. */
  predicate Untouched(qs: seq<Position>, b: Position, c: int)
  {
    forall i :: 0 <= i < |qs| ==> !(ChunkBase(qs[i]) == b && SubChunkOf(ChunkRelative(qs[i])) == c)
  }

  /** No position of `qs` lies in the chunk at `b`. */
  predicate ChunkUntouched(qs: seq<Position>, b: Position)
  {
    forall i :: 0 <= i < |qs| ==> ChunkBase(qs[i]) != b
  }

  /** How `Untouched` and `ChunkUntouched` grow by one position. */
  lemma UntouchedSnoc(qs: seq<Position>, b: Position, c: int)
    requires qs != []
    ensures var init, last := qs[..|qs| - 1], qs[|qs| - 1];
            ChunkUntouched(qs, b) == (ChunkUntouched(init, b) && ChunkBase(last) != b) &&
            Untouched(qs, b, c) == (Untouched(init, b, c) && !(ChunkBase(last) == b && SubChunkOf(ChunkRelative(last)) == c))
  {
    assert qs == qs[..|qs| - 1] + [qs[|qs| - 1]];
  }

  /** After invalidating `qs`, a sub-chunk flag of the chunk at `b` is still
      set exactly when it was set and no position of `qs` lies in that
      sub-chunk; the chunk's own flags are still set exactly when they were
      and no position of `qs` lies in the chunk. */
  lemma {:induction false} ClearedByAllSpec(cf: ChunkFlags, b: Position, qs: seq<Position>, li: int, c: int)
    requires FlagsFit(cf) && 0 <= li < LayerCount && 0 <= c < SubChunkSlots
    ensures var r := ClearedByAll(cf, b, qs);
            r.subChunkValid[li][c] == (cf.subChunkValid[li][c] && Untouched(qs, b, c)) &&
            r.meshesValid == (cf.meshesValid && ChunkUntouched(qs, b)) &&
            r.cachedMeshValid[li] == (cf.cachedMeshValid[li] && ChunkUntouched(qs, b))
  {
    if qs != [] {
      var init := qs[..|qs| - 1];
      ClearedByAllSpec(cf, b, init, li, c);
      UntouchedSnoc(qs, b, c);
    }
  }

  /** `invalidateChunkMeshesAll(q)` as seen by the chunk at `b`: every flag
      cleared when `q` lies in it. */
  function ChunkClearedBy(cf: ChunkFlags, b: Position, q: Position): ChunkFlags
  {
    if ChunkBase(q) == b then Cleared else cf
  }

  /** `ChunkClearedBy` for every position of `qs`, in order. */
  function ChunksClearedBy(cf: ChunkFlags, b: Position, qs: seq<Position>): ChunkFlags
  {
    if qs == [] then cf else ChunkClearedBy(ChunksClearedBy(cf, b, qs[..|qs| - 1]), b, qs[|qs| - 1])
  }

  /** After clearing the chunks holding `qs`, the chunk at `b` has every flag
      clear when some position of `qs` lies in it, and its old flags
      otherwise. */
  lemma {:induction false} ChunksClearedBySpec(cf: ChunkFlags, b: Position, qs: seq<Position>)
    ensures ChunksClearedBy(cf, b, qs) == if ChunkUntouched(qs, b) then cf else Cleared
  {
    if qs != [] {
      var init := qs[..|qs| - 1];
      ChunksClearedBySpec(cf, b, init);
      UntouchedSnoc(qs, b, 0);
    }
  }

  /** The positions `invalidateBlock(p)` invalidates: `p` itself, then the
      six face-adjacent positions in `BlockFace` order. */
  function Touched(p: Position): (qs: seq<Position>)
    ensures |qs| == 7 && qs[0] == p
    ensures forall i :: 0 <= i < 6 ==> qs[i + 1] == p.Plus(Delta(Faces[i]))
  {
    [p, p.Plus(Delta(NX)), p.Plus(Delta(PX)), p.Plus(Delta(NY)),
     p.Plus(Delta(PY)), p.Plus(Delta(NZ)), p.Plus(Delta(PZ))]
  }

  /** Every position whose neighbour across some face is `p` is among the
      positions `invalidateBlock(p)` invalidates: a sub-chunk that draws a
      block next to `p` is rebuilt after `p` changes. */
  lemma TouchedCoversReaders(p: Position, q: Position, face: BlockFace)
    requires q.Plus(Delta(face)) == p
    ensures q in Touched(p)
  {
    var qs := Touched(p);
    match face
    case NX => assert qs[2] == q;
    case PX => assert qs[1] == q;
    case NY => assert qs[4] == q;
    case PY => assert qs[3] == q;
    case NZ => assert qs[6] == q;
    case PZ => assert qs[5] == q;
  }

  /** The base position of the chunk next to the one at `base` across `face`. */
  function NeighbourBase(base: Position, face: BlockFace): (nb: Position)
    ensures nb == base.Plus(Delta(face).Scale(ChunkSize))
  {
    match face
    case NX => base.Plus(Vector(-ChunkSize, 0, 0))
    case PX => base.Plus(Vector(ChunkSize, 0, 0))
    case NY => base.Plus(Vector(0, -ChunkSize, 0))
    case PY => base.Plus(Vector(0, ChunkSize, 0))
    case NZ => base.Plus(Vector(0, 0, -ChunkSize))
    case PZ => base.Plus(Vector(0, 0, ChunkSize))
  }

  /** A step across a face from inside a chunk that leaves the chunk lands
      in the neighbour across that face, at the opposite edge. */
  lemma AcrossSeam(base: Position, face: BlockFace, v: Vector, w: Vector)
    requires IsChunkBase(base) && InChunk(v.x, v.y, v.z) && !InChunk(w.x, w.y, w.z)
    requires w == Vector(v.x + Delta(face).x, v.y + Delta(face).y, v.z + Delta(face).z)
    ensures ChunkBase(base.Plus(w)) == NeighbourBase(base, face)
    ensures ChunkRelative(base.Plus(w)) == Vector(Wrap(w.x), Wrap(w.y), Wrap(w.z))
  {
    var nb := NeighbourBase(base, face);
    var u := Vector(Wrap(w.x), Wrap(w.y), Wrap(w.z));
    match face {
      case NX => assert nb.x == base.x - ChunkSize && w.x == -1;
      case PX => assert nb.x == base.x + ChunkSize && w.x == ChunkSize;
      case NY => assert nb.y == base.y - ChunkSize && w.y == -1;
      case PY => assert nb.y == base.y + ChunkSize && w.y == ChunkSize;
      case NZ => assert nb.z == base.z - ChunkSize && w.z == -1;
      case PZ => assert nb.z == base.z + ChunkSize && w.z == ChunkSize;
    }
    assert nb.Plus(u) == base.Plus(w);
    ChunkBaseOfMember(nb, u);
  }

  /** The base positions `setChunk` invalidates, in its order. */
  function AxisNeighbours(base: Position): (bs: seq<Position>)
    ensures |bs| == 6 && forall i :: 0 <= i < 6 ==> bs[i] == NeighbourBase(base, Faces[i])
  {
    [NeighbourBase(base, NX), NeighbourBase(base, PX), NeighbourBase(base, NY),
     NeighbourBase(base, PY), NeighbourBase(base, NZ), NeighbourBase(base, PZ)]
  }

  /** Chunk base positions are at least a chunk apart, so no neighbour of a
      chunk shares its base. */
  lemma AxisNeighboursElsewhere(base: Position)
    requires IsChunkBase(base)
    ensures ChunkUntouched(AxisNeighbours(base), base)
  {
    forall i | 0 <= i < 6
      ensures ChunkBase(AxisNeighbours(base)[i]) != base
    {
      var nb := AxisNeighbours(base)[i];
      ChunkBaseIdempotent(nb);
      assert nb.x != base.x || nb.y != base.y || nb.z != base.z;
    }
  }

  /** `absSquared(pos - chunkPosition)`. */
  function DistanceSquared(pos: Position, chunkPosition: Position): (r: nat)
  {
    var v := pos.Minus(chunkPosition);
    v.x * v.x + v.y * v.y + v.z * v.z
  }

  /** The block array of a chunk, or null for an absent chunk. */
  function BlocksOf(chunk: RenderObjectChunk?): array3?<Block>
  {
    if chunk == null then null else chunk.blocks
  }

  /** Chunk lists `read` accepts: no null chunk and no base position twice. */
  predicate ReadableChunks(cs: seq<RenderObjectChunk?>)
  {
    (forall i :: 0 <= i < |cs| ==> cs[i] != null) &&
    (forall i, j :: 0 <= i < j < |cs| && cs[i] != null && cs[j] != null ==> cs[i].basePosition != cs[j].basePosition)
  }

  class RenderObjectWorld {
    /** `chunks`: base position to chunk. */
    var chunks: map<Position, RenderObjectChunk>
    /** The chunks the world has held, so that its methods may change them. */
    ghost var ChunkObjs: set<RenderObjectChunk>
    /** The block arrays of those chunks. */
    ghost var BlockArrays: set<array3<Block>>

    /** Every chunk's block array is one the world may read. */
    ghost predicate BlocksFramed()
      reads this
    {
      forall p :: p in chunks ==> chunks[p].blocks in BlockArrays
    }

    /** Every chunk is filed under its own base position, which is a chunk
        base, and is one the world may change. */
    ghost predicate Keyed()
      reads this
    {
      forall p :: p in chunks ==> chunks[p] in ChunkObjs && chunks[p].basePosition == p && IsChunkBase(p)
    }

    /** No two chunks share a block array. */
    ghost predicate BlocksDistinct()
      reads this
    {
      forall p, q :: p in chunks && q in chunks && p != q ==> chunks[p].blocks != chunks[q].blocks
    }

    /** Every chunk is a well-formed chunk. */
    ghost predicate ChunksValid()
      reads this, ChunkObjs
    {
      forall p :: p in chunks && chunks[p] in ChunkObjs ==> chunks[p].Valid()
    }

    /** Every chunk is filed under its own base position, is a well-formed
        chunk, and owns its block array. */
    ghost predicate Valid()
      reads this, ChunkObjs
    {
      Keyed() && BlocksFramed() && BlocksDistinct() && ChunksValid()
    }

    /** `RenderObjectWorld()`: no chunks. */
    constructor ()
      ensures Valid() && chunks == map[] && ChunkObjs == {} && BlockArrays == {} && fresh(this)
    {
      chunks := map[];
      ChunkObjs := {};
      BlockArrays := {};
    }

    /** `getChunk(pos)`: the chunk filed under `pos`, or null. */
    function GetChunk(pos: Position): (chunk: RenderObjectChunk?)
      requires Valid()
      reads this, ChunkObjs
      ensures chunk == null <==> pos !in chunks
      ensures chunk != null ==> chunk == chunks[pos] && chunk.basePosition == pos && chunk.Valid()
    {
      if pos in chunks then chunks[pos] else null
    }

    /** `getBlock(position)`: the block at `position` in the chunk holding
        it, or the empty block when there is no such chunk. */
    function GetBlock(position: Position): (b: Block)
      requires BlocksFramed()
      requires forall p :: p in chunks ==> ChunkShaped(chunks[p].blocks)
      reads this, BlockArrays
      ensures ChunkBase(position) !in chunks ==> b == EmptyBlock
    {
      var base := ChunkBase(position);
      if base !in chunks then EmptyBlock
      else
        var rel := ChunkRelative(position);
        assert ChunkShaped(chunks[base].blocks);
        chunks[base].blocks[rel.x, rel.y, rel.z]
    }

    /** The world's blocks are the chunks' blocks: position `v` of the chunk
        at `base` is the world position `base + v`. */
    lemma GetBlockOfChunk(base: Position, v: Vector)
      requires Valid() && base in chunks && InChunk(v.x, v.y, v.z)
      ensures GetBlock(base.Plus(v)) == chunks[base].blocks[v.x, v.y, v.z]
    {
      ChunkBaseOfMember(base, v);
    }

    /** `GetBlock` at a position whose chunk and offset are known. */
    lemma GetBlockAt(position: Position, b: Position, rel: Vector)
      requires Valid() && ChunkBase(position) == b && ChunkRelative(position) == rel
      ensures b in chunks ==> InChunk(rel.x, rel.y, rel.z) && GetBlock(position) == chunks[b].blocks[rel.x, rel.y, rel.z]
      ensures b !in chunks ==> GetBlock(position) == EmptyBlock
    {
    }

    /** The neighbour block arrays `generateMesh` hands to
        `generateDrawMeshes` for the chunk at `chunkPosition`. */
    function NeighbourBlocks(chunkPosition: Position): (nbrs: Neighbours)
      requires Valid()
      reads this, ChunkObjs
      ensures NeighboursShaped(nbrs)
      ensures forall face :: nbrs.Get(face) == BlocksOf(GetChunk(NeighbourBase(chunkPosition, face)))
    {
      Neighbours(BlocksOf(GetChunk(NeighbourBase(chunkPosition, NX))), BlocksOf(GetChunk(NeighbourBase(chunkPosition, PX))),
                 BlocksOf(GetChunk(NeighbourBase(chunkPosition, NY))), BlocksOf(GetChunk(NeighbourBase(chunkPosition, PY))),
                 BlocksOf(GetChunk(NeighbourBase(chunkPosition, NZ))), BlocksOf(GetChunk(NeighbourBase(chunkPosition, PZ))))
    }

    /** Seams are seamless: the side block a chunk draws next to its block
        `v` across `face`, with the neighbours `generateMesh` finds, is the
        world's block one step across that face. */
    lemma SideBlockIsWorldBlock(base: Position, face: BlockFace, v: Vector)
      requires Valid() && base in chunks && InChunk(v.x, v.y, v.z)
      ensures chunks[base].SideBlock(face, v.x, v.y, v.z, NeighbourBlocks(base)) == GetBlock(base.Plus(v).Plus(Delta(face)))
    {
      var nbrs := NeighbourBlocks(base);
      var d := Delta(face);
      var w := Vector(v.x + d.x, v.y + d.y, v.z + d.z);
      assert base.Plus(v).Plus(d) == base.Plus(w);
      if InChunk(w.x, w.y, w.z) {
        chunks[base].SideBlockLookup(face, v.x, v.y, v.z, nbrs);
        assert chunks[base].SideBlock(face, v.x, v.y, v.z, nbrs) == chunks[base].blocks[w.x, w.y, w.z];
        GetBlockOfChunk(base, w);
      } else {
        SideBlockAcrossSeam(base, face, v, w);
      }
    }

    /** `SideBlockIsWorldBlock` for a step that leaves the chunk. */
    lemma SideBlockAcrossSeam(base: Position, face: BlockFace, v: Vector, w: Vector)
      requires Valid() && base in chunks && InChunk(v.x, v.y, v.z) && !InChunk(w.x, w.y, w.z)
      requires w == Vector(v.x + Delta(face).x, v.y + Delta(face).y, v.z + Delta(face).z)
      ensures chunks[base].SideBlock(face, v.x, v.y, v.z, NeighbourBlocks(base)) == GetBlock(base.Plus(w))
    {
      var nbrs := NeighbourBlocks(base);
      AcrossSeam(base, face, v, w);
      var nb := NeighbourBase(base, face);
      var u := Vector(Wrap(w.x), Wrap(w.y), Wrap(w.z));
      GetBlockAt(base.Plus(w), nb, u);
      assert nbrs.Get(face) == BlocksOf(GetChunk(nb));
      match face {
        case NX =>
        case PX =>
        case NY =>
        case PY =>
        case NZ =>
        case PZ =>
      }
    }

    /** `invalidateChunkMeshes(q)`: the sub-chunk holding `q` invalidated in
        the chunk holding it; nothing happens when there is no such chunk. */
    method InvalidateChunkMeshes(q: Position)
      requires Valid()
      modifies if ChunkBase(q) in chunks then {chunks[ChunkBase(q)]} else {}
      ensures Valid() && unchanged(this) && unchanged(BlockArrays)
      ensures forall p :: p in chunks ==>
                chunks[p].Flags() == ClearedBy(old(chunks[p].Flags()), p, q) && chunks[p].Meshes() == old(chunks[p].Meshes())
    {
      var chunk := GetChunk(ChunkBase(q));
      if chunk != null {
        chunk.InvalidateMeshesAt(q);
      }
    }

    /** `invalidateBlock(position)`: when a chunk holds `position`, the
        sub-chunk holding it and then, in whatever chunks hold them, the
        sub-chunks of its six face neighbours are invalidated; with no chunk
        at `position` nothing happens, not even to the neighbours. */
    method InvalidateBlock(position: Position)
      requires Valid()
      modifies ChunkObjs
      ensures Valid() && unchanged(this) && unchanged(BlockArrays)
      ensures forall p :: p in chunks ==>
                chunks[p].Flags() == (if ChunkBase(position) in chunks then ClearedByAll(old(chunks[p].Flags()), p, Touched(position))
                                      else old(chunks[p].Flags())) &&
                chunks[p].Meshes() == old(chunks[p].Meshes())
    {
      var chunk := GetChunk(ChunkBase(position));
      if chunk == null {
        return;
      }
      ghost var qs := Touched(position);
      // `chunk->invalidate(position)` on the chunk just found.
      InvalidateChunkMeshes(position);
      forall p | p in chunks
        ensures chunks[p].Flags() == ClearedByAll(old(chunks[p].Flags()), p, qs[..1])
      {
        ClearedByAllSnoc(old(chunks[p].Flags()), p, qs, 0);
        assert qs[..0] == [];
      }
      for i := 0 to |Faces|
        invariant Valid() && unchanged(this) && unchanged(BlockArrays)
        invariant forall p :: p in chunks ==>
                    chunks[p].Flags() == ClearedByAll(old(chunks[p].Flags()), p, qs[..i + 1]) &&
                    chunks[p].Meshes() == old(chunks[p].Meshes())
      {
        InvalidateChunkMeshes(position.Plus(Delta(Faces[i])));
        forall p | p in chunks
          ensures chunks[p].Flags() == ClearedByAll(old(chunks[p].Flags()), p, qs[..i + 2])
        {
          ClearedByAllSnoc(old(chunks[p].Flags()), p, qs, i + 1);
        }
      }
      assert qs[..7] == qs;
    }

    /** `chunks[getChunkBasePosition(position)]` in `setBlock`: the chunk
        holding `position`, made with empty blocks and clear flags when
        missing. Making it changes no block of the world. */
    method ChunkAt(position: Position) returns (chunk: RenderObjectChunk)
      requires Valid()
      modifies this
      ensures Valid() && chunks == old(chunks)[ChunkBase(position) := chunk]
      ensures ChunkBase(position) in old(chunks) ==>
                chunk == old(chunks[ChunkBase(position)]) && ChunkObjs == old(ChunkObjs) && BlockArrays == old(BlockArrays)
      ensures ChunkBase(position) !in old(chunks) ==>
                fresh(chunk) && fresh(chunk.blocks) && chunk.Valid() && chunk.Flags() == Cleared &&
                ChunkObjs == old(ChunkObjs) + {chunk} && BlockArrays == old(BlockArrays) + {chunk.blocks}
      ensures forall p :: p in old(chunks) ==>
                chunks[p].Flags() == old(chunks[p].Flags()) && chunks[p].Meshes() == old(chunks[p].Meshes())
      ensures forall q :: GetBlock(q) == old(GetBlock(q))
    {
      var base := ChunkBase(position);
      if base in chunks {
        return chunks[base];
      }
      chunk := new RenderObjectChunk(base);
      ChunkBaseIdempotent(position);
      chunks := chunks[base := chunk];
      ChunkObjs := ChunkObjs + {chunk};
      BlockArrays := BlockArrays + {chunk.blocks};
      assert Keyed() && BlocksFramed() && BlocksDistinct();
      assert ChunksValid();
      forall q
        ensures GetBlock(q) == old(GetBlock(q))
      {
        GetBlockAt(q, ChunkBase(q), ChunkRelative(q));
      }
    }

    /** The block store of `setBlock`: the block array of the chunk holding
        `position` gets `block` there, and nothing else changes. */
    method StoreBlock(position: Position, block: Block)
      requires Valid() && ChunkBase(position) in chunks
      modifies chunks[ChunkBase(position)].blocks
      ensures Valid() && unchanged(this) && unchanged(ChunkObjs)
      ensures GetBlock(position) == block
      ensures forall q :: q != position ==> GetBlock(q) == old(GetBlock(q))
    {
      var chunk := chunks[ChunkBase(position)];
      var rel := ChunkRelative(position);
      chunk.blocks[rel.x, rel.y, rel.z] := block;
      GetBlockAt(position, ChunkBase(position), rel);
      forall q | q != position
        ensures GetBlock(q) == old(GetBlock(q))
      {
        GetBlockAt(q, ChunkBase(q), ChunkRelative(q));
      }
    }

    /** `setBlock(position, block)`: the chunk holding `position` is made
        when missing, the block is stored, and `invalidateBlock(position)`
        follows. Afterwards `getBlock` sees the new block at `position` and
        the old one everywhere else. */
    method SetBlock(position: Position, block: Block)
      requires Valid()
      modifies this, ChunkObjs, BlockArrays
      ensures Valid()
      ensures chunks.Keys == old(chunks.Keys) + {ChunkBase(position)}
      ensures forall p :: p in old(chunks) ==> chunks[p] == old(chunks[p]) && chunks[p].Meshes() == old(chunks[p].Meshes())
      ensures GetBlock(position) == block
      ensures forall q :: q != position ==> GetBlock(q) == old(GetBlock(q))
      ensures forall p :: p in chunks ==>
                chunks[p].Flags() == ClearedByAll(if p in old(chunks) then old(chunks[p].Flags()) else Cleared, p, Touched(position))
    {
      var chunk := ChunkAt(position);
      StoreBlock(position, block);
      InvalidateBlock(position);
    }
  
    /** `invalidateChunkMeshesAll(q)`: every flag of the chunk holding `q`
        cleared; nothing happens when there is no such chunk. */
    method InvalidateChunkMeshesAll(q: Position)
      requires Valid()
      modifies if ChunkBase(q) in chunks then {chunks[ChunkBase(q)]} else {}
      ensures Valid() && unchanged(this) && unchanged(BlockArrays)
      ensures forall p :: p in chunks ==>
                chunks[p].Flags() == ChunkClearedBy(old(chunks[p].Flags()), p, q) && chunks[p].Meshes() == old(chunks[p].Meshes())
    {
      var chunk := GetChunk(ChunkBase(q));
      if chunk != null {
        chunk.InvalidateMeshes();
      }
    }

    /** The map update of `setChunk`: `chunk` filed under its base
        position, replacing any chunk there; the world's blocks in its extent
        become its blocks. */
    method InstallChunk(chunk: RenderObjectChunk)
      requires Valid() && chunk.Valid() && IsChunkBase(chunk.basePosition)
      requires forall p :: p in chunks && p != chunk.basePosition ==> chunks[p].blocks != chunk.blocks
      modifies this
      ensures Valid()
      ensures chunks == old(chunks)[chunk.basePosition := chunk]
      ensures ChunkObjs == old(ChunkObjs) + {chunk} && BlockArrays == old(BlockArrays) + {chunk.blocks}
      ensures forall q :: GetBlock(q) == if ChunkBase(q) == chunk.basePosition
                                         then chunk.blocks[ChunkRelative(q).x, ChunkRelative(q).y, ChunkRelative(q).z]
                                         else old(GetBlock(q))
    {
      chunks := chunks[chunk.basePosition := chunk];
      ChunkObjs := ChunkObjs + {chunk};
      BlockArrays := BlockArrays + {chunk.blocks};
      assert Keyed() && BlocksFramed() && BlocksDistinct() && ChunksValid();
      forall q
        ensures GetBlock(q) == if ChunkBase(q) == chunk.basePosition
                               then chunk.blocks[ChunkRelative(q).x, ChunkRelative(q).y, ChunkRelative(q).z]
                               else old(GetBlock(q))
      {
        GetBlockAt(q, ChunkBase(q), ChunkRelative(q));
      }
    }

    /** `setChunk(chunk)`: the chunk filed under its base position, replacing
        any chunk there, and then the six chunks next to it along the axes
        fully invalidated. The installed chunk keeps its own flags, and the
        world's blocks in its extent become its blocks. */
    method SetChunk(chunk: RenderObjectChunk)
      requires Valid() && chunk.Valid() && IsChunkBase(chunk.basePosition)
      requires forall p :: p in chunks && p != chunk.basePosition ==> chunks[p].blocks != chunk.blocks
      modifies this, ChunkObjs, chunk
      ensures Valid()
      ensures chunks == old(chunks)[chunk.basePosition := chunk]
      ensures ChunkObjs == old(ChunkObjs) + {chunk} && BlockArrays == old(BlockArrays) + {chunk.blocks}
      ensures chunk.Flags() == old(chunk.Flags()) && chunk.Meshes() == old(chunk.Meshes())
      ensures forall p :: p in old(chunks) && p != chunk.basePosition ==>
                chunks[p].Flags() == ChunksClearedBy(old(chunks[p].Flags()), p, AxisNeighbours(chunk.basePosition)) &&
                chunks[p].Meshes() == old(chunks[p].Meshes())
      ensures forall q :: GetBlock(q) == if ChunkBase(q) == chunk.basePosition
                                         then chunk.blocks[ChunkRelative(q).x, ChunkRelative(q).y, ChunkRelative(q).z]
                                         else old(GetBlock(q))
    {
      var base := chunk.basePosition;
      InstallChunk(chunk);
      InvalidateAxisNeighbours(base);
      AxisNeighboursElsewhere(base);
      ChunksClearedBySpec(old(chunk.Flags()), base, AxisNeighbours(base));
    }

    /** The six `invalidateChunkMeshesAll` calls of `setChunk`: every chunk
        next to the chunk at `base` along an axis fully invalidated. */
    method InvalidateAxisNeighbours(base: Position)
      requires Valid()
      modifies ChunkObjs
      ensures Valid()
      ensures forall p :: p in chunks ==>
                chunks[p].Flags() == ChunksClearedBy(old(chunks[p].Flags()), p, AxisNeighbours(base)) &&
                chunks[p].Meshes() == old(chunks[p].Meshes())
    {
      var qs := AxisNeighbours(base);
      for i := 0 to 6
        invariant Valid()
        invariant forall p :: p in chunks ==>
                    chunks[p].Flags() == ChunksClearedBy(old(chunks[p].Flags()), p, qs[..i]) &&
                    chunks[p].Meshes() == old(chunks[p].Meshes())
      {
        InvalidateChunkMeshesAll(qs[i]);
        assert qs[..i + 1][..i] == qs[..i];
      }
      assert qs[..6] == qs;
    }

    /** `generateMesh(chunkPosition)`: the chunk at `chunkPosition`, if
        there is one, regenerates its draw meshes with the six chunks next
        to it as neighbours; every other chunk is left alone. `true` exactly
        when a chunk was there and its meshes were stale. */
    method GenerateMesh(chunkPosition: Position) returns (generated: bool)
      requires Valid()
      modifies if chunkPosition in chunks then {chunks[chunkPosition]} else {}
      ensures Valid() && unchanged(this) && unchanged(BlockArrays)
      ensures generated == (chunkPosition in chunks && !old(chunks[chunkPosition].meshesValid))
      ensures forall p :: p in chunks && p != chunkPosition ==>
                chunks[p].Flags() == old(chunks[p].Flags()) && chunks[p].Meshes() == old(chunks[p].Meshes())
      ensures chunkPosition in chunks ==> chunks[chunkPosition].meshesValid
      ensures generated ==>
                var chunk := chunks[chunkPosition];
                forall li :: 0 <= li < LayerCount ==>
                  chunk.GetDrawMesh(LayerAt(li)) ==
                    RegenPrefix(old(chunk.subChunkValid[li]), old(chunk.subChunkMeshes[li]),
                                old(chunk.FreshMeshes(LayerAt(li), NeighbourBlocks(chunkPosition))), SubChunkSlots)
    {
      var chunk := GetChunk(chunkPosition);
      if chunk == null {
        return false;
      }
      var nbrs := NeighbourBlocks(chunkPosition);
      ghost var rebuilt := [chunk.FreshMeshes(LayerAt(0), nbrs), chunk.FreshMeshes(LayerAt(1), nbrs)];
      generated := chunk.GenerateDrawMeshes(nbrs, rebuilt);
      forall p | p in chunks && p != chunkPosition
        ensures chunks[p] != chunk
      {
        assert chunks[p].basePosition == p;
      }
    }

    /** The chunks whose draw meshes are stale. */
    ghost predicate Stale(p: Position)
      reads this, ChunkObjs
    {
      p in chunks && chunks[p] in ChunkObjs && !chunks[p].meshesValid
    }

    /** `generateMeshes(pos)`: among the chunks whose draw meshes are stale,
        one nearest to `pos` is regenerated; `false`, with nothing changed,
        when there is none. */
    method GenerateMeshes(pos: Position) returns (generated: bool, ghost chosen: Position)
      requires Valid()
      modifies ChunkObjs
      ensures Valid() && unchanged(this) && unchanged(BlockArrays)
      ensures generated == exists p :: old(Stale(p))
      ensures !generated ==> forall p :: p in chunks ==> chunks[p].Flags() == old(chunks[p].Flags()) && chunks[p].Meshes() == old(chunks[p].Meshes())
      ensures generated ==>
                old(Stale(chosen)) && !Stale(chosen) &&
                (forall p :: old(Stale(p)) ==> DistanceSquared(pos, chosen) <= DistanceSquared(pos, p)) &&
                forall p :: p in chunks && p != chosen ==>
                  chunks[p].Flags() == old(chunks[p].Flags()) && chunks[p].Meshes() == old(chunks[p].Meshes())
    {
      var keys := chunks.Keys;
      var found := false;
      var best := pos;
      while keys != {}
        invariant keys <= chunks.Keys
        invariant found ==> Stale(best)
        invariant found ==> forall p :: p in chunks.Keys - keys && Stale(p) ==> DistanceSquared(pos, best) <= DistanceSquared(pos, p)
        invariant !found ==> forall p :: p in chunks.Keys - keys ==> !Stale(p)
        decreases keys
      {
        var k :| k in keys;
        keys := keys - {k};
        if !chunks[k].meshesValid && (!found || DistanceSquared(pos, k) < DistanceSquared(pos, best)) {
          found, best := true, k;
        }
      }
      chosen := best;
      if !found {
        return false, chosen;
      }
      generated := GenerateMesh(best);
    }
}

  /** After the first `n` chunks of `cs` went into `world` without error:
      they are distinct and filed under their base positions, and the world
      holds nothing else. */
  ghost predicate ReadInto(world: RenderObjectWorld, cs: seq<RenderObjectChunk?>, n: nat)
    reads world
    requires n <= |cs|
  {
    ReadableChunks(cs[..n]) &&
    world.chunks.Keys == (set k | 0 <= k < n :: cs[k].basePosition) &&
    (forall k :: 0 <= k < n ==> world.chunks[cs[k].basePosition] == cs[k]) &&
    (forall p :: p in world.chunks ==> world.chunks[p] in cs[..n])
  }

  /** One iteration of `read`'s chunk loop: the `i`-th chunk is refused
      when it is absent or its base position is taken, and is filed
      otherwise. */
  method ReadChunkInto(world: RenderObjectWorld, cs: seq<RenderObjectChunk?>, i: nat) returns (ok: bool)
    requires forall i :: 0 <= i < |cs| && cs[i] != null ==> cs[i].Valid() && IsChunkBase(cs[i].basePosition)
    requires forall i, j :: 0 <= i < |cs| && 0 <= j < |cs| && cs[i] != null && cs[j] != null && cs[i] != cs[j] ==>
               cs[i].blocks != cs[j].blocks
    requires i < |cs| && world.Valid() && ReadInto(world, cs, i)
    modifies world
    ensures world.Valid()
    ensures !ok ==> !ReadableChunks(cs)
    ensures ok ==> ReadInto(world, cs, i + 1)
  {
    var chunk := cs[i];
    if chunk == null || chunk.basePosition in world.chunks {
      assert !ReadableChunks(cs) by {
        if chunk != null {
          var k :| 0 <= k < i && cs[k].basePosition == chunk.basePosition;
          assert cs[k] != null && cs[i] != null && cs[k].basePosition == cs[i].basePosition;
        }
      }
      return false;
    }
    world.InstallChunk(chunk);
    assert cs[..i + 1] == cs[..i] + [chunk];
    return true;
  }

  /** `RenderObjectWorld::read`, after the chunk count and the chunks
      themselves have been read (`BlockChunk::read` is not part of this
      model): `cs` are the chunks in stream order. An absent chunk or a
      second chunk at the same base position is an InvalidDataValueException;
      otherwise the world holds exactly the chunks read, each under its base
      position. */
  method ReadWorld(cs: seq<RenderObjectChunk?>) returns (r: Result<RenderObjectWorld, IOError>)
    requires forall i :: 0 <= i < |cs| && cs[i] != null ==> cs[i].Valid() && IsChunkBase(cs[i].basePosition)
    requires forall i, j :: 0 <= i < |cs| && 0 <= j < |cs| && cs[i] != null && cs[j] != null && cs[i] != cs[j] ==>
               cs[i].blocks != cs[j].blocks
    ensures r.Failure? <==> !ReadableChunks(cs)
    ensures r.Failure? ==> r.error == InvalidDataValue
    ensures r.Success? ==>
              var w := r.value;
              fresh(w) && w.Valid() &&
              w.chunks.Keys == (set i | 0 <= i < |cs| :: cs[i].basePosition) &&
              forall i :: 0 <= i < |cs| ==> w.chunks[cs[i].basePosition] == cs[i]
  {
    var world := new RenderObjectWorld();
    for i := 0 to |cs|
      invariant world.Valid() && fresh(world)
      invariant ReadInto(world, cs, i)
    {
      var ok := ReadChunkInto(world, cs, i);
      if !ok {
        return Failure(InvalidDataValue);
      }
    }
    assert cs[..|cs|] == cs;
    return Success(world);
  }
}
