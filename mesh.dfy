/** The three buffers that TerrainGenerator.Generate builds for one chunk,
    described as values: the vertex buffer (one vertex per grid point of a
    (resolution + 1) x (resolution + 1) lattice, row-major, rows along x), the
    UV buffer (one world-aligned texture coordinate per vertex) and the index
    buffer (two triangles per grid cell, six indices per cell, cells row-major).
    The heights come from noise and a radial falloff computed in floating point
    by the engine; here they are an arbitrary height field, so every fact below
    holds whatever the noise settings are. */
module Mesh {
  import opened Grid

  /** Edge length of a chunk in world units. */
  const ChunkSize: int := 128

  /** Largest resolution for which every index the generator computes fits a
      32-bit int: 18918 * 18918 * 6 <= 2^31 - 1 < 18919 * 18919 * 6. */
  const MaxResolution: int := 18918

  /** Largest value of a 32-bit signed int. */
  const Int32Max: int := 0x7fff_ffff

  /** A mesh vertex: local x, height, local z (exact values of the floats). */
  datatype Vertex = Vertex(x: real, y: real, z: real)

  /** A texture coordinate. */
  datatype Uv = Uv(u: real, v: real)

  /** The height that the noise layers and the island falloff give at an
      integer world sample point (x, z), for fixed noise settings. */
  type HeightField = (int, int) -> real

  /** Resolutions the generator handles: at least one cell per chunk edge and
      no 32-bit overflow in the index arithmetic. */
  predicate ValidResolution(r: int)
  {
    1 <= r <= MaxResolution
  }

  /** Length of the vertex buffer and of the UV buffer. */
  function VertexCount(r: int): int
  {
    (r + 1) * (r + 1)
  }

  /** Length of the index buffer: six indices for each of the r * r cells. */
  function IndexCount(r: int): int
  {
    r * r * 6
  }

  /** Slot of grid point (x, z) in the vertex buffer. */
  function VertexSlot(x: int, z: int, r: int): int
  {
    Slot(x, z, r + 1)
  }

  /** Slot j of cell (x, y) in the index buffer. */
  function CellSlot(x: int, y: int, j: int, r: int): int
  {
    Slot(Slot(x, y, r), j, 6)
  }

  /** Offset from the chunk origin at which grid line c samples the height
      field: the product c * 128 divided by r in integer arithmetic. */
  function SampleOffset(c: int, r: int): int
    requires r >= 1
  {
    c * ChunkSize / r
  }

  /** Local coordinate of grid line c: c steps of 128 / r world units. */
  function LocalCoord(c: int, r: int): real
    requires r >= 1
  {
    c as real * (ChunkSize as real / r as real)
  }

  /** The vertex generated for grid point (x, z) of the chunk at world origin
      (ox, oz). */
  function VertexAt(r: int, ox: int, oz: int, field: HeightField, x: int, z: int): Vertex
    requires r >= 1
  {
    Vertex(LocalCoord(x, r), field(ox + SampleOffset(x, r), oz + SampleOffset(z, r)), LocalCoord(z, r))
  }

  /** Row x of the vertex buffer: grid points (x, 0) .. (x, r). */
  function VertexRow(r: int, ox: int, oz: int, field: HeightField, x: int): (row: seq<Vertex>)
    requires r >= 1
  {
    seq(r + 1, z => VertexAt(r, ox, oz, field, x, z))
  }

  /** Rows 0 .. x - 1 of the vertex buffer, in order. */
  function VertexRows(r: int, ox: int, oz: int, field: HeightField, x: nat): seq<Vertex>
    requires r >= 1
  {
    if x == 0 then [] else VertexRows(r, ox, oz, field, x - 1) + VertexRow(r, ox, oz, field, x - 1)
  }

  /** The whole vertex buffer: all r + 1 rows. */
  function VertexBuffer(r: int, ox: int, oz: int, field: HeightField): (vs: seq<Vertex>)
    requires ValidResolution(r)
    ensures |vs| == VertexCount(r)
  {
    VertexRowsLength(r, ox, oz, field, r + 1);
    VertexRows(r, ox, oz, field, r + 1)
  }

  /** The UV buffer: slot k holds the world position of vertex k. */
  function UvBuffer(vs: seq<Vertex>, ox: int, oz: int): (uvs: seq<Uv>)
    ensures |uvs| == |vs|
  {
    seq(|vs|, k requires 0 <= k < |vs| => Uv(vs[k].x + ox as real, vs[k].z + oz as real))
  }

  /** The six indices of cell (x, y), from the running vertex cursor v:
      triangles {v, v+1, v+r+1} and {v+1, v+r+2, v+r+1}. */
  function CellIndices(x: int, y: int, r: int): (c: seq<int>)
    ensures |c| == 6 && c[3] == c[1] && c[5] == c[2]
  {
    var v := VertexSlot(x, y, r);
    [v, v + 1, v + r + 1, v + 1, v + r + 2, v + r + 1]
  }

  /** Cells (x, 0) .. (x, y - 1) of row x of the index buffer. */
  function CellRow(x: int, y: nat, r: int): (row: seq<int>)
    ensures |row| == 6 * y
  {
    if y == 0 then [] else CellRow(x, y - 1, r) + CellIndices(x, y - 1, r)
  }

  /** Rows 0 .. x - 1 of the index buffer, in order. */
  function CellRows(x: nat, r: nat): seq<int>
  {
    if x == 0 then [] else CellRows(x - 1, r) + CellRow(x - 1, r, r)
  }

  /** The whole index buffer: all r rows of r cells. */
  function TriangleIndices(r: int): (t: seq<int>)
    requires ValidResolution(r)
    ensures |t| == IndexCount(r)
  {
    CellRowsLength(r, r);
    CellRows(r, r)
  }

  /** Grid point (column along x, position along z) of vertex slot i. */
  function GridPoint(i: int, r: int): (int, int)
    requires r >= 1
  {
    (i / (r + 1), i % (r + 1))
  }

  /** Twice the signed area of triangle (p, q, s) in grid coordinates. */
  function Orientation(p: (int, int), q: (int, int), s: (int, int)): int
  {
    (q.0 - p.0) * (s.1 - p.1) - (q.1 - p.1) * (s.0 - p.0)
  }

  /** Triangle (p, q, s) joins corners of grid cell (x, y) and has signed area
      -1: half a cell, wound the same way as every triangle of the mesh. */
  predicate TriangleOfCell(p: (int, int), q: (int, int), s: (int, int), x: int, y: int)
  {
    x <= p.0 <= x + 1 && x <= q.0 <= x + 1 && x <= s.0 <= x + 1 &&
    y <= p.1 <= y + 1 && y <= q.1 <= y + 1 && y <= s.1 <= y + 1 &&
    Orientation(p, q, s) == -1
  }

  // ---------------------------------------------------------------------------
  // Buffer lengths and 32-bit safety

  /** For every valid resolution the buffer lengths, the cursors and the
      indices written stay within a 32-bit int, and the sample offsets too. */
  lemma IndexArithmeticFitsInt32(r: int)
    requires ValidResolution(r)
    ensures 0 < VertexCount(r) <= IndexCount(r) + 6 <= Int32Max
    ensures r * ChunkSize <= Int32Max
  {
    MulMonotone(r, MaxResolution, r);
    MulMonotone(r, MaxResolution, MaxResolution);
    MulMonotone(1, r, r);
  }

  /** Grid lines 0 .. r lie within the chunk's 128-unit edge. */
  lemma LocalCoordInChunk(c: int, r: int)
    requires r >= 1 && 0 <= c <= r
    ensures 0.0 <= LocalCoord(c, r) <= ChunkSize as real
  {
    var step := ChunkSize as real / r as real;
    assert r as real * step == ChunkSize as real;
    assert LocalCoord(c, r) == r as real * step - (r - c) as real * step;
  }

  /** The vertex of every grid point lies in the chunk's 128 x 128 square. */
  lemma VertexInChunk(r: int, ox: int, oz: int, field: HeightField, x: int, z: int)
    requires r >= 1 && 0 <= x <= r && 0 <= z <= r
    ensures var v := VertexAt(r, ox, oz, field, x, z);
            0.0 <= v.x <= ChunkSize as real && 0.0 <= v.z <= ChunkSize as real
  {
    LocalCoordInChunk(x, r);
    LocalCoordInChunk(z, r);
  }

  // ---------------------------------------------------------------------------
  // Vertex and UV buffers

  /** The first x rows of the vertex buffer hold x * (r + 1) vertices. */
  lemma {:induction false} VertexRowsLength(r: int, ox: int, oz: int, field: HeightField, x: nat)
    requires r >= 1
    ensures |VertexRows(r, ox, oz, field, x)| == VertexSlot(x, 0, r)
  {
    if x > 0 {
      VertexRowsLength(r, ox, oz, field, x - 1);
      SlotNextRow(x - 1, r + 1);
    }
  }

  /** In the first x rows of the vertex buffer, grid point (a, z) sits in slot
      a * (r + 1) + z. */
  lemma {:induction false} VertexRowsAt(r: int, ox: int, oz: int, field: HeightField, x: nat, a: int, z: int)
    requires r >= 1 && 0 <= a < x && 0 <= z <= r
    ensures |VertexRows(r, ox, oz, field, x)| == VertexSlot(x, 0, r)
    ensures 0 <= VertexSlot(a, z, r) < VertexSlot(x, 0, r)
    ensures VertexRows(r, ox, oz, field, x)[VertexSlot(a, z, r)] == VertexAt(r, ox, oz, field, a, z)
  {
    VertexRowsLength(r, ox, oz, field, x);
    VertexRowsLength(r, ox, oz, field, x - 1);
    SlotBelow(a, z, r + 1, x);
    if a == x - 1 {
      assert VertexSlot(a, z, r) == VertexSlot(x - 1, 0, r) + z;
    } else {
      VertexRowsAt(r, ox, oz, field, x - 1, a, z);
    }
  }

  /** The vertex buffer holds (r + 1)^2 vertices, grid point (x, z) in slot
      x * (r + 1) + z. */
  lemma VertexBufferAt(r: int, ox: int, oz: int, field: HeightField, x: int, z: int)
    requires ValidResolution(r) && 0 <= x <= r && 0 <= z <= r
    ensures |VertexBuffer(r, ox, oz, field)| == VertexCount(r)
    ensures 0 <= VertexSlot(x, z, r) < VertexCount(r)
    ensures VertexBuffer(r, ox, oz, field)[VertexSlot(x, z, r)] == VertexAt(r, ox, oz, field, x, z)
  {
    VertexRowsAt(r, ox, oz, field, r + 1, x, z);
  }

  /** Vertex slots and grid points correspond one to one: every slot of the
      buffer is the slot of exactly the grid point GridPoint gives. */
  lemma VertexSlotBijective(r: int, i: int)
    requires ValidResolution(r) && 0 <= i < VertexCount(r)
    ensures 0 <= GridPoint(i, r).0 <= r && 0 <= GridPoint(i, r).1 <= r
    ensures VertexSlot(GridPoint(i, r).0, GridPoint(i, r).1, r) == i
    ensures forall x, z :: 0 <= x <= r && 0 <= z <= r && VertexSlot(x, z, r) == i ==> (x, z) == GridPoint(i, r)
  {
    SlotOfQuotient(i, r + 1, r + 1);
    forall x, z | 0 <= x <= r && 0 <= z <= r && VertexSlot(x, z, r) == i
      ensures (x, z) == GridPoint(i, r)
    {
      SlotDecomposes(x, z, r + 1);
    }
  }

  /** The UV of grid point (x, z) is its world position: the chunk origin plus
      the vertex's local coordinates, so textures line up across chunks. */
  lemma UvIsWorldPosition(r: int, ox: int, oz: int, field: HeightField, x: int, z: int)
    requires ValidResolution(r) && 0 <= x <= r && 0 <= z <= r
    ensures 0 <= VertexSlot(x, z, r) < VertexCount(r)
    ensures UvBuffer(VertexBuffer(r, ox, oz, field), ox, oz)[VertexSlot(x, z, r)]
         == Uv(ox as real + LocalCoord(x, r), oz as real + LocalCoord(z, r))
  {
    VertexBufferAt(r, ox, oz, field, x, z);
  }

  /** The height field decides the heights and nothing else: two fields give
      vertex buffers that agree on every x and z and the same UV buffer. */
  lemma LayoutIgnoresHeights(r: int, ox: int, oz: int, f: HeightField, g: HeightField)
    requires ValidResolution(r)
    ensures forall k :: 0 <= k < VertexCount(r) ==>
      VertexBuffer(r, ox, oz, f)[k].x == VertexBuffer(r, ox, oz, g)[k].x &&
      VertexBuffer(r, ox, oz, f)[k].z == VertexBuffer(r, ox, oz, g)[k].z
    ensures UvBuffer(VertexBuffer(r, ox, oz, f), ox, oz) == UvBuffer(VertexBuffer(r, ox, oz, g), ox, oz)
  {
    VertexBufferAt(r, ox, oz, f, 0, 0);
    VertexBufferAt(r, ox, oz, g, 0, 0);
    forall k | 0 <= k < VertexCount(r)
      ensures VertexBuffer(r, ox, oz, f)[k].x == VertexBuffer(r, ox, oz, g)[k].x
      ensures VertexBuffer(r, ox, oz, f)[k].z == VertexBuffer(r, ox, oz, g)[k].z
    {
      SlotOfQuotient(k, r + 1, r + 1);
      VertexBufferAt(r, ox, oz, f, k / (r + 1), k % (r + 1));
      VertexBufferAt(r, ox, oz, g, k / (r + 1), k % (r + 1));
    }
  }

  /** The height is sampled at the integer part of the vertex's exact local
      coordinate; both agree when r divides 128 (the 16, 64 and 128 presets). */
  lemma SampleOffsetTruncates(c: int, r: int)
    requires ValidResolution(r) && 0 <= c
    ensures SampleOffset(c, r) as real <= LocalCoord(c, r) < SampleOffset(c, r) as real + 1.0
    ensures ChunkSize % r == 0 ==> SampleOffset(c, r) as real == LocalCoord(c, r)
  {
    var q := SampleOffset(c, r);
    var rr := r as real;
    assert q * r <= c * ChunkSize < q * r + r;
    assert LocalCoord(c, r) == (c * ChunkSize) as real / rr;
    assert (q * r) as real == q as real * rr;
    if ChunkSize % r == 0 {
      var step := ChunkSize / r;
      assert c * ChunkSize == c * step * r;
      SlotDecomposes(c * step, 0, r);
    }
  }

  /** Both edges of a chunk are sampled and placed exactly: grid line 0 at
      offset 0 and grid line r at offset 128. */
  lemma ChunkEdgesExact(r: int)
    requires ValidResolution(r)
    ensures SampleOffset(0, r) == 0 && SampleOffset(r, r) == ChunkSize
    ensures LocalCoord(0, r) == 0.0 && LocalCoord(r, r) == ChunkSize as real
  {
    SlotDecomposes(ChunkSize, 0, r);
  }

  // ---------------------------------------------------------------------------
  // Index buffer

  /** In the first y cells of row x, cell c's six indices sit from slot 6 * c on. */
  lemma {:induction false} CellRowAt(x: int, y: nat, r: int, c: int, j: int)
    requires 0 <= c < y && 0 <= j < 6
    ensures 0 <= Slot(c, j, 6) < 6 * y
    ensures CellRow(x, y, r)[Slot(c, j, 6)] == CellIndices(x, c, r)[j]
  {
    if c < y - 1 {
      CellRowAt(x, y - 1, r, c, j);
    }
  }

  /** The first x rows of the index buffer hold 6 * x * r indices. */
  lemma {:induction false} CellRowsLength(x: nat, r: nat)
    ensures |CellRows(x, r)| == CellSlot(x, 0, 0, r)
  {
    if x > 0 {
      CellRowsLength(x - 1, r);
      SlotNextRow(x - 1, r);
    }
  }

  /** In the first x rows of the index buffer, the six indices of cell (a, c)
      follow the rows before row a and the c cells before it in row a. */
  lemma {:induction false} CellRowsAt(x: nat, r: nat, a: nat, c: int, j: int)
    requires a < x && 0 <= c < r && 0 <= j < 6
    ensures |CellRows(a, r)| + Slot(c, j, 6) < |CellRows(x, r)|
    ensures CellRows(x, r)[|CellRows(a, r)| + Slot(c, j, 6)] == CellIndices(a, c, r)[j]
  {
    if a == x - 1 {
      CellRowAt(a, r, r, c, j);
    } else {
      CellRowsAt(x - 1, r, a, c, j);
    }
  }

  /** Slot j of cell (a, c) lies 6 * c + j past the start of row a. */
  lemma CellSlotInRow(a: int, c: int, j: int, r: int)
    ensures CellSlot(a, c, j, r) == CellSlot(a, 0, 0, r) + Slot(c, j, 6)
  {
    assert Slot(a, c, r) == Slot(a, 0, r) + c;
  }

  /** The index buffer holds r * r * 6 indices, and cell (x, y) owns the six
      consecutive slots starting at 6 * (x * r + y). */
  lemma TriangleCell(r: int, x: int, y: int, j: int)
    requires ValidResolution(r) && 0 <= x < r && 0 <= y < r && 0 <= j < 6
    ensures |TriangleIndices(r)| == IndexCount(r)
    ensures 0 <= CellSlot(x, y, j, r) < IndexCount(r)
    ensures TriangleIndices(r)[CellSlot(x, y, j, r)] == CellIndices(x, y, r)[j]
  {
    CellRowsAt(r, r, x, y, j);
    CellRowsLength(x, r);
    CellSlotInRow(x, y, j, r);
  }

  /** Index slots and cell slots correspond one to one: slot k is slot k % 6
      of cell k / 6 and of no other cell, so each slot is written exactly once. */
  lemma TriangleSlotOwner(r: int, k: int)
    requires ValidResolution(r) && 0 <= k < IndexCount(r)
    ensures 0 <= k / 6 / r < r && 0 <= k / 6 % r < r
    ensures CellSlot(k / 6 / r, k / 6 % r, k % 6, r) == k
    ensures forall x, y, j :: 0 <= x < r && 0 <= y < r && 0 <= j < 6 && CellSlot(x, y, j, r) == k ==>
      (x, y, j) == (k / 6 / r, k / 6 % r, k % 6)
  {
    SlotOfQuotient(k, 6, r * r);
    SlotOfQuotient(k / 6, r, r);
    forall x, y, j | 0 <= x < r && 0 <= y < r && 0 <= j < 6 && CellSlot(x, y, j, r) == k
      ensures (x, y, j) == (k / 6 / r, k / 6 % r, k % 6)
    {
      SlotDecomposes(Slot(x, y, r), j, 6);
      SlotDecomposes(x, y, r);
    }
  }

  /** The cursor offsets v, v+1, v+r+1 and v+r+2 are the four corners of the
      cell: the extra step per row keeps a cell from wrapping into the next row. */
  lemma CellCorners(x: int, y: int, r: int)
    ensures CellIndices(x, y, r) == [VertexSlot(x, y, r), VertexSlot(x, y + 1, r), VertexSlot(x + 1, y, r),
                                     VertexSlot(x, y + 1, r), VertexSlot(x + 1, y + 1, r), VertexSlot(x + 1, y, r)]
  {
    assert (x + 1) * (r + 1) == x * (r + 1) + r + 1;
  }

  /** Every index refers to a vertex: it lies in [0, (r + 1)^2). */
  lemma TriangleIndexInRange(r: int, k: int)
    requires ValidResolution(r) && 0 <= k < IndexCount(r)
    ensures 0 <= TriangleIndices(r)[k] < VertexCount(r)
  {
    TriangleSlotOwner(r, k);
    var x, y, j := k / 6 / r, k / 6 % r, k % 6;
    TriangleCell(r, x, y, j);
    CellCorners(x, y, r);
    SlotBelow(x + 1, y + 1, r + 1, r + 1);
    SlotBelow(x, y, r + 1, r + 1);
  }

  /** The four cursor offsets of cell (x, y) are the grid points (x, y),
      (x, y + 1), (x + 1, y) and (x + 1, y + 1). */
  lemma CellGridPoints(x: int, y: int, r: int)
    requires ValidResolution(r) && 0 <= x < r && 0 <= y < r
    ensures var c := CellIndices(x, y, r);
            GridPoint(c[0], r) == (x, y) && GridPoint(c[1], r) == (x, y + 1) &&
            GridPoint(c[2], r) == (x + 1, y) && GridPoint(c[4], r) == (x + 1, y + 1)
  {
    CellCorners(x, y, r);
    SlotDecomposes(x, y, r + 1);
    SlotDecomposes(x, y + 1, r + 1);
    SlotDecomposes(x + 1, y, r + 1);
    SlotDecomposes(x + 1, y + 1, r + 1);
  }

  /** Triangle h (0 or 1) of cell (x, y) joins three corners of the cell and
      winds like every other triangle of the mesh. */
  lemma CellTriangle(x: int, y: int, r: int, h: int)
    requires ValidResolution(r) && 0 <= x < r && 0 <= y < r && 0 <= h < 2
    ensures var c := CellIndices(x, y, r);
            TriangleOfCell(GridPoint(c[3 * h], r), GridPoint(c[3 * h + 1], r), GridPoint(c[3 * h + 2], r), x, y)
  {
    CellGridPoints(x, y, r);
  }

  /** Each of the 2 * r * r triangles joins three corners of its own cell and
      has the same orientation as every other: the mesh is a consistently wound
      grid triangulation without degenerate or row-wrapping triangles. */
  lemma TriangleInCell(r: int, t: int)
    requires ValidResolution(r) && 0 <= t < 2 * r * r
    ensures 0 <= 3 * t && 3 * t + 2 < IndexCount(r)
    ensures var tri := TriangleIndices(r);
            TriangleOfCell(GridPoint(tri[3 * t], r), GridPoint(tri[3 * t + 1], r), GridPoint(tri[3 * t + 2], r),
                           t / 2 / r, t / 2 % r)
  {
    TriangleCorner(r, t, 0);
    TriangleCorner(r, t, 1);
    TriangleCorner(r, t, 2);
    CellTriangle(t / 2 / r, t / 2 % r, r, t % 2);
  }

  /** Corner i of triangle t of the buffer is corner i of triangle t % 2 of
      cell t / 2, cells taken in row-major order. */
  lemma TriangleCorner(r: int, t: int, i: int)
    requires ValidResolution(r) && 0 <= t < 2 * r * r && 0 <= i < 3
    ensures 0 <= t / 2 / r < r && 0 <= t / 2 % r < r
    ensures 0 <= 3 * t + i < IndexCount(r)
    ensures TriangleIndices(r)[3 * t + i] == CellIndices(t / 2 / r, t / 2 % r, r)[3 * (t % 2) + i]
  {
    var c, h := t / 2, t % 2;
    SlotOfQuotient(c, r, r);
    var x, y := c / r, c % r;
    assert Slot(x, y, r) == c;
    assert 3 * t + i == CellSlot(x, y, 3 * h + i, r);
    TriangleCell(r, x, y, 3 * h + i);
  }

  /** Cell (x, y) fills exactly the six consecutive slots that start at
      6 * (x * r + y), with its two triangles. */
  lemma CellRun(r: int, x: int, y: int)
    requires ValidResolution(r) && 0 <= x < r && 0 <= y < r
    ensures 0 <= CellSlot(x, y, 0, r) && CellSlot(x, y, 0, r) + 6 <= IndexCount(r)
    ensures TriangleIndices(r)[CellSlot(x, y, 0, r)..CellSlot(x, y, 0, r) + 6] == CellIndices(x, y, r)
  {
    var tri, base := TriangleIndices(r), CellSlot(x, y, 0, r);
    TriangleCell(r, x, y, 5);
    assert CellSlot(x, y, 5, r) == base + 5;
    forall j | 0 <= j < 6
      ensures tri[base + j] == CellIndices(x, y, r)[j]
    {
      TriangleCell(r, x, y, j);
      assert CellSlot(x, y, j, r) == base + j;
    }
    assert tri[base..base + 6] == CellIndices(x, y, r);
  }

  /** The two triangles of a cell share exactly the diagonal
      {v + 1, v + r + 1}, the corners (x, y + 1) and (x + 1, y). */
  lemma SharedDiagonal(r: int, x: int, y: int)
    requires ValidResolution(r) && 0 <= x < r && 0 <= y < r
    ensures 0 <= CellSlot(x, y, 0, r) && CellSlot(x, y, 0, r) + 6 <= IndexCount(r)
    ensures var cell := TriangleIndices(r)[CellSlot(x, y, 0, r)..CellSlot(x, y, 0, r) + 6];
            {cell[0], cell[1], cell[2]} * {cell[3], cell[4], cell[5]} == {VertexSlot(x, y + 1, r), VertexSlot(x + 1, y, r)}
  {
    CellRun(r, x, y);
    CellDiagonal(x, y, r);
  }

  /** Within one cell, the index triples {v, v+1, v+r+1} and {v+1, v+r+2, v+r+1}
      meet in exactly the diagonal corners. */
  lemma CellDiagonal(x: int, y: int, r: int)
    requires 1 <= r
    ensures var c := CellIndices(x, y, r);
            {c[0], c[1], c[2]} * {c[3], c[4], c[5]} == {VertexSlot(x, y + 1, r), VertexSlot(x + 1, y, r)}
  {
    CellCorners(x, y, r);
    var v := VertexSlot(x, y, r);
    assert {v, v + 1, v + r + 1} * {v + 1, v + r + 2, v + r + 1} == {v + 1, v + r + 1};
  }

  /** No vertex is left out of the triangulation: every vertex slot appears in
      the index buffer. */
  lemma EveryVertexReferenced(r: int, i: int)
    requires ValidResolution(r) && 0 <= i < VertexCount(r)
    ensures exists k :: 0 <= k < IndexCount(r) && TriangleIndices(r)[k] == i
  {
    SlotOfQuotient(i, r + 1, r + 1);
    var a, b := i / (r + 1), i % (r + 1);
    var x, y := if a < r then a else r - 1, if b < r then b else r - 1;
    var j := if a < r && b < r then 0 else if a < r then 1 else if b < r then 2 else 4;
    TriangleCell(r, x, y, j);
    CellCorners(x, y, r);
  }

  /** The smallest mesh: one cell, four vertices and the indices [0, 1, 2, 1, 3, 2]. */
  lemma SingleCellMesh()
    ensures VertexCount(1) == 4 && IndexCount(1) == 6
    ensures TriangleIndices(1) == [0, 1, 2, 1, 3, 2]
  {
    var t := TriangleIndices(1);
    TriangleCell(1, 0, 0, 0);
    TriangleCell(1, 0, 0, 1);
    TriangleCell(1, 0, 0, 2);
    TriangleCell(1, 0, 0, 3);
    TriangleCell(1, 0, 0, 4);
    TriangleCell(1, 0, 0, 5);
    assert t[0] == 0 && t[1] == 1 && t[2] == 2 && t[3] == 1 && t[4] == 3 && t[5] == 2;
  }
}
