/** ChunkManager: lays the island out as a grid of square chunks, 128 world
    units apart, and has one TerrainGenerator build the mesh of each. */
module World {
  import opened Grid
  import opened Mesh
  import opened Terrain

  // ---------------------------------------------------------------------------
  // Loop bounds

  /** Number of iterations of a loop that counts an int up from 0 while it
      stays below the float bound w: the naturals n with n < w. */
  function Span(w: real): nat
  {
    if w <= 0.0 then 0 else -((-w).Floor)
  }

  /** Span(w) counts exactly the naturals below w. */
  lemma SpanCounts(w: real, n: nat)
    ensures n < Span(w) <==> n as real < w
  {
    if w > 0.0 {
      var f := (-w).Floor;
      assert f as real <= -w < f as real + 1.0;
    }
  }

  // ---------------------------------------------------------------------------
  // Chunks

  /** The mesh one generator hands to the chunk's mesh filter and collider. */
  datatype ChunkMesh = ChunkMesh(vertices: seq<Vertex>, triangles: seq<int>, uvs: seq<Uv>)

  /** A chunk object: the loop counters it was made in, its local position
      under the manager, and its mesh. */
  datatype Chunk = Chunk(gridX: int, gridY: int, position: Position, mesh: ChunkMesh)

  /** Local position of chunk (x, y): x * 128 along x, y * 128 along z. */
  function ChunkPosition(x: int, y: int): Position
  {
    Position(x * ChunkSize, 0, y * ChunkSize)
  }

  /** The mesh Generate builds for a chunk placed at p. */
  function ChunkMeshAt(r: int, field: HeightField, p: Position): (m: ChunkMesh)
    requires ValidResolution(r)
    ensures |m.vertices| == |m.uvs| == VertexCount(r) && |m.triangles| == IndexCount(r)
  {
    var vs := VertexBuffer(r, p.x, p.z, field);
    ChunkMesh(vs, TriangleIndices(r), UvBuffer(vs, p.x, p.z))
  }

  /** The chunk made at loop counters (x, y). */
  function ChunkAt(r: int, field: HeightField, x: int, y: int): Chunk
    requires ValidResolution(r)
  {
    Chunk(x, y, ChunkPosition(x, y), ChunkMeshAt(r, field, ChunkPosition(x, y)))
  }

  /** Chunks made by the inner loop for column x once y has reached ny. */
  function ChunkColumn(r: int, field: HeightField, x: int, ny: nat): (column: seq<Chunk>)
    requires ValidResolution(r)
    ensures |column| == ny
  {
    if ny == 0 then [] else ChunkColumn(r, field, x, ny - 1) + [ChunkAt(r, field, x, ny - 1)]
  }

  /** Chunks made by the outer loop once x has reached nx, with ny chunks per
      column. */
  function ChunkGrid(r: int, field: HeightField, nx: nat, ny: nat): seq<Chunk>
    requires ValidResolution(r)
  {
    if nx == 0 then [] else ChunkGrid(r, field, nx - 1, ny) + ChunkColumn(r, field, nx - 1, ny)
  }

  /** Position of a vertex of a chunk in the manager's frame: the chunk's
      local position plus the vertex. */
  function WorldVertex(c: Chunk, k: int): Vertex
    requires 0 <= k < |c.mesh.vertices|
  {
    var v := c.mesh.vertices[k];
    Vertex(c.position.x as real + v.x, c.position.y as real + v.y, c.position.z as real + v.z)
  }

  class ChunkManager {
    /** Number of chunks along x and along z; a float pair in the editor. */
    var worldSizeX: real
    var worldSizeY: real
    var resolution: int
    /** Island height at each integer world sample point. */
    var field: HeightField
    /** The chunk objects made so far, in creation order. */
    var chunks: seq<Chunk>

    constructor (worldSizeX: real, worldSizeY: real, resolution: int, field: HeightField)
      ensures this.worldSizeX == worldSizeX && this.worldSizeY == worldSizeY
      ensures this.resolution == resolution && this.field == field
      ensures chunks == []
    {
      this.worldSizeX := worldSizeX;
      this.worldSizeY := worldSizeY;
      this.resolution := resolution;
      this.field := field;
      chunks := [];
    }

    /** Makes one chunk per grid cell, column by column: the chunk at counters
        (x, y) sits at (x * 128, 0, y * 128) and carries the mesh its own
        generator built there. */
    method GenerateChunks()
      requires ValidResolution(resolution)
      modifies this`chunks
      ensures chunks == old(chunks) + ChunkGrid(resolution, field, Span(worldSizeX), Span(worldSizeY))
    {
      var x := 0;
      while (x as real) < worldSizeX
        invariant 0 <= x <= Span(worldSizeX)
        invariant chunks == old(chunks) + ChunkGrid(resolution, field, x, Span(worldSizeY))
        decreases Span(worldSizeX) - x
      {
        SpanCounts(worldSizeX, x);
        GenerateColumn(x);
        x := x + 1;
      }
      SpanCounts(worldSizeX, x);
    }

    /** The inner loop of GenerateChunks for column x: one chunk per y below
        worldSize.y, in increasing y. */
    method GenerateColumn(x: nat)
      requires ValidResolution(resolution)
      modifies this`chunks
      ensures chunks == old(chunks) + ChunkColumn(resolution, field, x, Span(worldSizeY))
    {
      var y := 0;
      while (y as real) < worldSizeY
        invariant 0 <= y <= Span(worldSizeY)
        invariant chunks == old(chunks) + ChunkColumn(resolution, field, x, y)
        decreases Span(worldSizeY) - y
      {
        SpanCounts(worldSizeY, y);
        var chunk := MakeChunk(x, y);
        chunks := chunks + [chunk];
        y := y + 1;
      }
      SpanCounts(worldSizeY, y);
    }

    /** The body of the inner loop: a fresh generator, attached to a chunk
        object placed at (x * 128, 0, y * 128), builds that chunk's mesh. */
    method MakeChunk(x: int, y: int) returns (chunk: Chunk)
      requires ValidResolution(resolution)
      ensures chunk == ChunkAt(resolution, field, x, y)
    {
      var generator := new TerrainGenerator();
      generator.Init(ChunkPosition(x, y));
      generator.Generate(resolution, field);
      var mesh := ChunkMesh(generator.verts[..], generator.triangles[..], generator.uvs[..]);
      chunk := Chunk(x, y, generator.position, mesh);
    }
  }

  // ---------------------------------------------------------------------------
  // The chunk grid

  /** The chunk made at counters (x, y) sits at height 0 on the 128-unit
      lattice, its counters are its position divided by 128, and its mesh has
      (r + 1)^2 vertices and UVs and r * r * 6 indices. */
  lemma ChunkPlacement(r: int, field: HeightField, x: int, y: int)
    requires ValidResolution(r)
    ensures var c := ChunkAt(r, field, x, y);
            c.position.y == 0 &&
            c.position.x % ChunkSize == 0 && c.position.x / ChunkSize == c.gridX == x &&
            c.position.z % ChunkSize == 0 && c.position.z / ChunkSize == c.gridY == y &&
            |c.mesh.vertices| == |c.mesh.uvs| == VertexCount(r) && |c.mesh.triangles| == IndexCount(r)
  {
  }

  /** Column x holds ny chunks, the one made at counter y in position y. */
  lemma {:induction false} ChunkColumnAt(r: int, field: HeightField, x: int, ny: nat, y: int)
    requires ValidResolution(r) && 0 <= y < ny
    ensures ChunkColumn(r, field, x, ny)[y] == ChunkAt(r, field, x, y)
  {
    if y < ny - 1 {
      ChunkColumnAt(r, field, x, ny - 1, y);
    }
  }

  /** The first nx columns hold nx * ny chunks. */
  lemma {:induction false} ChunkGridLength(r: int, field: HeightField, nx: nat, ny: nat)
    requires ValidResolution(r)
    ensures |ChunkGrid(r, field, nx, ny)| == Slot(nx, 0, ny)
  {
    if nx > 0 {
      ChunkGridLength(r, field, nx - 1, ny);
      SlotNextRow(nx - 1, ny);
    }
  }

  /** The chunk made at counters (x, y) is in slot x * ny + y. */
  lemma {:induction false} ChunkGridAt(r: int, field: HeightField, nx: nat, ny: nat, x: int, y: int)
    requires ValidResolution(r) && 0 <= x < nx && 0 <= y < ny
    ensures |ChunkGrid(r, field, nx, ny)| == Slot(nx, 0, ny)
    ensures 0 <= Slot(x, y, ny) < Slot(nx, 0, ny)
    ensures ChunkGrid(r, field, nx, ny)[Slot(x, y, ny)] == ChunkAt(r, field, x, y)
  {
    var before, column := ChunkGrid(r, field, nx - 1, ny), ChunkColumn(r, field, nx - 1, ny);
    ChunkGridLength(r, field, nx, ny);
    ChunkGridLength(r, field, nx - 1, ny);
    SlotBelow(x, y, ny, nx);
    if x == nx - 1 {
      ChunkColumnAt(r, field, x, ny, y);
      assert Slot(x, y, ny) == |before| + y;
    } else {
      ChunkGridAt(r, field, nx - 1, ny, x, y);
    }
  }

  /** Every entry of the grid is the chunk of its own slot: its counters lie
      in range and slot k holds the chunk made at (k / ny, k % ny). */
  lemma ChunkGridEntry(r: int, field: HeightField, nx: nat, ny: nat, k: int)
    requires ValidResolution(r) && 0 <= k < |ChunkGrid(r, field, nx, ny)|
    ensures 0 <= ChunkGrid(r, field, nx, ny)[k].gridX < nx && 0 <= ChunkGrid(r, field, nx, ny)[k].gridY < ny
    ensures Slot(ChunkGrid(r, field, nx, ny)[k].gridX, ChunkGrid(r, field, nx, ny)[k].gridY, ny) == k
    ensures ChunkGrid(r, field, nx, ny)[k] == ChunkAt(r, field, k / ny, k % ny)
  {
    ChunkGridLength(r, field, nx, ny);
    assert Slot(nx, 0, ny) == nx * ny;
    SlotOfQuotient(k, ny, nx);
    ChunkGridAt(r, field, nx, ny, k / ny, k % ny);
  }

  /** The loops visit every counter pair (x, y) with x below worldSize.x and
      y below worldSize.y, and no other: chunk (x, y) is made if and only if
      both bounds admit it. */
  lemma ChunkGridCovers(r: int, field: HeightField, wx: real, wy: real, x: nat, y: nat)
    requires ValidResolution(r)
    ensures (exists k :: 0 <= k < |ChunkGrid(r, field, Span(wx), Span(wy))| &&
                         ChunkGrid(r, field, Span(wx), Span(wy))[k] == ChunkAt(r, field, x, y))
        <==> x as real < wx && y as real < wy
  {
    var g := ChunkGrid(r, field, Span(wx), Span(wy));
    SpanCounts(wx, x);
    SpanCounts(wy, y);
    if x as real < wx && y as real < wy {
      ChunkGridAt(r, field, Span(wx), Span(wy), x, y);
    }
    if k :| 0 <= k < |g| && g[k] == ChunkAt(r, field, x, y) {
      ChunkGridEntry(r, field, Span(wx), Span(wy), k);
    }
  }

  /** Each counter pair is visited once: two slots never hold the chunk of
      the same pair, nor two chunks at the same position. */
  lemma ChunkGridVisitsOnce(r: int, field: HeightField, nx: nat, ny: nat, i: int, j: int)
    requires ValidResolution(r)
    requires 0 <= i < |ChunkGrid(r, field, nx, ny)| && 0 <= j < |ChunkGrid(r, field, nx, ny)| && i != j
    ensures (ChunkGrid(r, field, nx, ny)[i].gridX, ChunkGrid(r, field, nx, ny)[i].gridY)
         != (ChunkGrid(r, field, nx, ny)[j].gridX, ChunkGrid(r, field, nx, ny)[j].gridY)
    ensures ChunkGrid(r, field, nx, ny)[i].position != ChunkGrid(r, field, nx, ny)[j].position
  {
    ChunkGridEntry(r, field, nx, ny, i);
    ChunkGridEntry(r, field, nx, ny, j);
  }

  /** x-major order: a chunk made earlier has a smaller x, or the same x and
      a smaller y. */
  lemma ChunkGridXMajor(r: int, field: HeightField, nx: nat, ny: nat, i: int, j: int)
    requires ValidResolution(r)
    requires 0 <= i < j < |ChunkGrid(r, field, nx, ny)|
    ensures ChunkGrid(r, field, nx, ny)[i].gridX < ChunkGrid(r, field, nx, ny)[j].gridX ||
            (ChunkGrid(r, field, nx, ny)[i].gridX == ChunkGrid(r, field, nx, ny)[j].gridX &&
             ChunkGrid(r, field, nx, ny)[i].gridY < ChunkGrid(r, field, nx, ny)[j].gridY)
  {
    ChunkGridEntry(r, field, nx, ny, i);
    ChunkGridEntry(r, field, nx, ny, j);
    var g := ChunkGrid(r, field, nx, ny);
    SlotOrder(g[i].gridX, g[i].gridY, g[j].gridX, g[j].gridY, ny);
  }

  /** A world size of zero or less on either axis makes no chunks. */
  lemma EmptyWorld(r: int, field: HeightField, wx: real, wy: real)
    requires ValidResolution(r) && (wx <= 0.0 || wy <= 0.0)
    ensures ChunkGrid(r, field, Span(wx), Span(wy)) == []
  {
    ChunkGridLength(r, field, Span(wx), Span(wy));
    assert Slot(Span(wx), 0, Span(wy)) == Span(wx) * Span(wy);
  }

  // ---------------------------------------------------------------------------
  // Seams between neighbouring chunks

  /** Chunks 128 units apart meet without a gap or a step: the last vertex
      column of chunk (x, y) and the first of chunk (x + 1, y) lie at the
      same positions in the manager's frame and carry the same UVs. */
  lemma SeamAlongX(r: int, field: HeightField, x: int, y: int, z: int)
    requires ValidResolution(r) && 0 <= z <= r
    ensures 0 <= VertexSlot(r, z, r) < VertexCount(r) && 0 <= VertexSlot(0, z, r) < VertexCount(r)
    ensures WorldVertex(ChunkAt(r, field, x, y), VertexSlot(r, z, r))
         == WorldVertex(ChunkAt(r, field, x + 1, y), VertexSlot(0, z, r))
    ensures ChunkAt(r, field, x, y).mesh.uvs[VertexSlot(r, z, r)]
         == ChunkAt(r, field, x + 1, y).mesh.uvs[VertexSlot(0, z, r)]
  {
    var p, q := ChunkPosition(x, y), ChunkPosition(x + 1, y);
    ChunkEdgesExact(r);
    VertexBufferAt(r, p.x, p.z, field, r, z);
    VertexBufferAt(r, q.x, q.z, field, 0, z);
    UvIsWorldPosition(r, p.x, p.z, field, r, z);
    UvIsWorldPosition(r, q.x, q.z, field, 0, z);
    assert q.x == p.x + ChunkSize;
  }

  /** The same along z: the last vertex row of chunk (x, y) and the first of
      chunk (x, y + 1) coincide in the manager's frame and in UV. */
  lemma SeamAlongZ(r: int, field: HeightField, x: int, y: int, c: int)
    requires ValidResolution(r) && 0 <= c <= r
    ensures 0 <= VertexSlot(c, r, r) < VertexCount(r) && 0 <= VertexSlot(c, 0, r) < VertexCount(r)
    ensures WorldVertex(ChunkAt(r, field, x, y), VertexSlot(c, r, r))
         == WorldVertex(ChunkAt(r, field, x, y + 1), VertexSlot(c, 0, r))
    ensures ChunkAt(r, field, x, y).mesh.uvs[VertexSlot(c, r, r)]
         == ChunkAt(r, field, x, y + 1).mesh.uvs[VertexSlot(c, 0, r)]
  {
    var p, q := ChunkPosition(x, y), ChunkPosition(x, y + 1);
    ChunkEdgesExact(r);
    VertexBufferAt(r, p.x, p.z, field, c, r);
    VertexBufferAt(r, q.x, q.z, field, c, 0);
    UvIsWorldPosition(r, p.x, p.z, field, c, r);
    UvIsWorldPosition(r, q.x, q.z, field, c, 0);
    assert q.z == p.z + ChunkSize;
  }
}
