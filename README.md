# Island terrain chunks: mesh index bookkeeping

This project models the part of the island terrain generator that lays the
island out as chunks and builds each chunk's mesh. `ChunkManager.GenerateChunks`
walks a `worldSize.x` by `worldSize.y` grid in x-major order. It places chunk
`(x, y)` at local position `(x * 128, 0, y * 128)` and has a fresh
`TerrainGenerator` build its mesh. `TerrainGenerator.Generate` fills three
buffers:

- a vertex buffer with one vertex for each point of a `(resolution + 1)^2`
  lattice, filled through a running cursor `i`;
- a UV buffer that gives each vertex its world position;
- an index buffer with two triangles per cell, filled through the cursors
  `tris` (six per cell) and `vert` (one per cell, plus one per row).

The heights come from Perlin noise and a radial falloff in floating point.
They are a parameter here (`Mesh.HeightField`): a function from an integer
world sample point to a height. So every fact below holds for any noise
settings.

The Dafny is organised as follows:

- `grid.dfy` (module `Grid`): row-major slot arithmetic.
- `mesh.dfy` (module `Mesh`): the three buffers as values, built row by row as
  the loops build them, with their properties. These cover lengths, slot
  closed forms, the range of the indices, the cell triangles and their
  orientation, the shared diagonal, UVs as world positions and the sampling
  offsets.
- `terrain_generator.dfy` (module `Terrain`): the class `TerrainGenerator`.
  `Generate` fills fresh arrays with the source's loops and cursors and is
  proved to produce exactly those values. The inner loop of each nested loop
  is its own method (`FillVertexRow`, `FillCellRow`). It takes the running
  cursors in and hands them back, as the source carries them from row to row.
- `chunk_manager.dfy` (module `World`): the class `ChunkManager`.
  `GenerateChunks` runs the two nested loops with float bounds. The inner loop
  is `GenerateColumn` and its body `MakeChunk`. It is proved to append exactly
  the chunk grid. Lemmas cover coverage, visiting each chunk
  once, order, the empty world and seamless chunk borders.

Two details of the code worth noting:

- The height is sampled at `x * 128 / resolution` in integer arithmetic
  (line 168). The vertex is placed at `x * (128f / resolution)` (line 189).
  `Mesh.SampleOffsetTruncates` shows the two agree when `resolution` divides
  128. That holds for the 16, 64 and 128 presets.
- `resolution = 0` is not rejected before `Generate`. It throws on the integer
  division at line 168.

## Model

| member | source | states |
|---|---|---|
| Mesh.VertexBuffer | Assets/Scripts/ChunkManager.cs:159 | the vertex buffer holds (resolution + 1)^2 vertices |
| Mesh.UvBuffer | Assets/Scripts/ChunkManager.cs:160 | the UV buffer has exactly one slot per vertex |
| Mesh.TriangleIndices | Assets/Scripts/ChunkManager.cs:201 | the index buffer holds resolution * resolution * 6 indices |
| Mesh.IndexArithmeticFitsInt32 | Assets/Scripts/ChunkManager.cs:159-216 | for 1 <= resolution <= 18918, the buffer lengths, the cursors, every index written and the sample products fit in a 32-bit int |
| Mesh.VertexRowsLength | Assets/Scripts/ChunkManager.cs:164-193 | after x rows the vertex loop has filled x * (resolution + 1) slots |
| Mesh.VertexRowsAt | Assets/Scripts/ChunkManager.cs:164-193 | after x rows, grid point (a, z) of an earlier row is in slot a * (resolution + 1) + z, inside the filled part |
| Mesh.VertexBufferAt | Assets/Scripts/ChunkManager.cs:164-191 | grid point (x, z) is in slot x * (resolution + 1) + z, inside the buffer; its vertex is (x * 128 / r, the height sampled at the chunk origin plus the integer offsets, z * 128 / r) |
| Mesh.VertexSlotBijective | Assets/Scripts/ChunkManager.cs:164-191 | every vertex slot is the slot of exactly one grid point, so each slot is written exactly once |
| Mesh.LocalCoordInChunk | Assets/Scripts/ChunkManager.cs:189 | grid lines 0 .. resolution are placed within [0, 128] |
| Mesh.VertexInChunk | Assets/Scripts/ChunkManager.cs:168-189 | the vertex of every grid point has its x and z inside the chunk's 128 x 128 square |
| Mesh.UvIsWorldPosition | Assets/Scripts/ChunkManager.cs:196-199 | the UV of grid point (x, z) is the chunk origin plus that vertex's local x and z |
| Mesh.LayoutIgnoresHeights | Assets/Scripts/ChunkManager.cs:168-198 | two height fields give vertex buffers that agree on every x and z, and identical UV buffers |
| Mesh.SampleOffsetTruncates | Assets/Scripts/ChunkManager.cs:168-189 | the integer sample offset is the floor of the exact vertex coordinate, and equal to it when resolution divides 128 |
| Mesh.ChunkEdgesExact | Assets/Scripts/ChunkManager.cs:168-189 | grid lines 0 and resolution are sampled and placed at offsets exactly 0 and 128 |
| Mesh.CellIndices | Assets/Scripts/ChunkManager.cs:208-213 | a cell writes six indices, and its second triangle repeats the first triangle's second and third corners (the shared diagonal) |
| Mesh.CellRowAt | Assets/Scripts/ChunkManager.cs:206-217 | after y cells of a row the inner loop has written 6 * y indices, cell c's six from slot 6 * c |
| Mesh.CellRowsLength | Assets/Scripts/ChunkManager.cs:204-219 | after x rows the outer loop has written 6 * x * resolution indices |
| Mesh.CellRowsAt | Assets/Scripts/ChunkManager.cs:204-219 | after x rows, index j of cell (a, c) of an earlier row sits 6 * c + j past the end of rows 0 .. a - 1, inside the filled part |
| Mesh.CellSlotInRow | Assets/Scripts/ChunkManager.cs:206-216 | slot j of cell (a, c) lies 6 * c + j past the start of row a: the cursor tris moves six slots per cell |
| Mesh.TriangleCell | Assets/Scripts/ChunkManager.cs:201-219 | cell (x, y) owns the slots from 6 * (x * resolution + y), all inside the buffer, holding its six indices |
| Mesh.TriangleSlotOwner | Assets/Scripts/ChunkManager.cs:201-216 | index slot k is slot k % 6 of cell k / 6 and of no other cell, so every slot is written exactly once |
| Mesh.CellCorners | Assets/Scripts/ChunkManager.cs:208-218 | the cursor offsets v, v+1, v+r+1, v+r+2 are the vertex slots of the cell's four corners |
| Mesh.TriangleIndexInRange | Assets/Scripts/ChunkManager.cs:208-213 | every index written lies in [0, (resolution + 1)^2) |
| Mesh.CellGridPoints | Assets/Scripts/ChunkManager.cs:208-213 | the indices of cell (x, y) decode to grid points (x, y), (x, y + 1), (x + 1, y) and (x + 1, y + 1) |
| Mesh.CellTriangle | Assets/Scripts/ChunkManager.cs:208-213 | both triangles of a cell join corners of that cell and have the same winding (signed area -1) |
| Mesh.TriangleCorner | Assets/Scripts/ChunkManager.cs:201-219 | corner i of triangle t in the buffer is corner i of triangle t % 2 of cell t / 2, cells in row-major order |
| Mesh.TriangleInCell | Assets/Scripts/ChunkManager.cs:201-219 | each of the 2 * r * r triangles in the buffer lies in its own cell and is wound like all others |
| Mesh.CellRun | Assets/Scripts/ChunkManager.cs:208-216 | cell (x, y) fills exactly six consecutive slots, with its two triangles |
| Mesh.SharedDiagonal | Assets/Scripts/ChunkManager.cs:208-213 | in the buffer, a cell's two triangles share exactly the diagonal corners (x, y + 1) and (x + 1, y) |
| Mesh.CellDiagonal | Assets/Scripts/ChunkManager.cs:208-213 | the triples {v, v+1, v+r+1} and {v+1, v+r+2, v+r+1} meet in exactly {v+1, v+r+1} |
| Mesh.EveryVertexReferenced | Assets/Scripts/ChunkManager.cs:201-219 | every vertex appears in some triangle |
| Mesh.SingleCellMesh | Assets/Scripts/ChunkManager.cs:159-219 | resolution 1 gives 4 vertices and the index buffer [0, 1, 2, 1, 3, 2] |
| Terrain.TerrainGenerator.constructor | Assets/Scripts/ChunkManager.cs:121 | a new generator sits at the origin with no buffers yet (empty arrays here, null in the source) |
| Terrain.TerrainGenerator.Init | Assets/Scripts/ChunkManager.cs:124-126 | the generator is attached to the chunk object placed at the given local position |
| Terrain.TerrainGenerator.Generate | Assets/Scripts/ChunkManager.cs:154-219 | replaces verts, uvs and triangles with fresh arrays holding exactly the vertex, UV and index buffers for the chunk's position |
| Terrain.FillVertices | Assets/Scripts/ChunkManager.cs:164-193 | the vertex loop, with invariant i == x * (resolution + 1) + z, leaves exactly the vertex buffer in the array |
| Terrain.FillVertexRow | Assets/Scripts/ChunkManager.cs:166-192 | the inner vertex loop appends row x after the rows before it, returns the cursor advanced by resolution + 1, and leaves every slot from that cursor on unchanged |
| Terrain.FillUvs | Assets/Scripts/ChunkManager.cs:196-199 | the UV loop writes every slot k from vertex k and the origin, and changes only the UV array |
| Terrain.FillTriangles | Assets/Scripts/ChunkManager.cs:202-219 | the triangle loop, with invariants tris == 6 * (x * resolution + y) and vert == x * (resolution + 1) + y, leaves exactly the index buffer in the array |
| Terrain.FillCellRow | Assets/Scripts/ChunkManager.cs:206-218 | the inner triangle loop appends the cells of row x after the rows before it and returns the cursors at the end of the row: tris = 6 * (x * resolution + resolution), vert = x * (resolution + 1) + resolution |
| Terrain.WriteCell | Assets/Scripts/ChunkManager.cs:208-213 | one cell's six writes set exactly slots tris .. tris + 5 and leave the rest of the array alone |
| Terrain.CellFits | Assets/Scripts/ChunkManager.cs:201-213 | the six slots of each cell lie inside the index array |
| Terrain.CellAppended | Assets/Scripts/ChunkManager.cs:208-216 | writing a cell after the cells before it extends the filled prefix by that cell |
| World.SpanCounts | Assets/Scripts/ChunkManager.cs:117-119 | a loop counting from 0 while below the float bound w runs for exactly the naturals n < w |
| World.ChunkMeshAt | Assets/Scripts/ChunkManager.cs:159-201 | the mesh a generator builds has (resolution + 1)^2 vertices and UVs and resolution * resolution * 6 indices |
| World.ChunkPlacement | Assets/Scripts/ChunkManager.cs:121-127 | the chunk made at counters (x, y) sits at height 0 on the 128-unit lattice, the counters are its position divided by 128, and its mesh has the buffer lengths |
| World.ChunkColumn | Assets/Scripts/ChunkManager.cs:119-128 | the inner loop for one column makes one chunk per y below the bound |
| World.ChunkColumnAt | Assets/Scripts/ChunkManager.cs:119-128 | entry y of a column is the chunk made at counters (x, y) |
| World.ChunkGridLength | Assets/Scripts/ChunkManager.cs:117-129 | nx columns of ny make nx * ny chunks |
| World.ChunkGridAt | Assets/Scripts/ChunkManager.cs:117-129 | the chunk made at counters (x, y) is entry x * ny + y |
| World.ChunkGridEntry | Assets/Scripts/ChunkManager.cs:117-129 | every entry's counters are in range, and entry k is the chunk made at (k / ny, k % ny) |
| World.ChunkGridCovers | Assets/Scripts/ChunkManager.cs:117-124 | chunk (x, y) is made if and only if x < worldSize.x and y < worldSize.y |
| World.ChunkGridVisitsOnce | Assets/Scripts/ChunkManager.cs:117-124 | two entries never have the same counters or the same position |
| World.ChunkGridXMajor | Assets/Scripts/ChunkManager.cs:117-119 | an earlier chunk has a smaller x, or the same x and a smaller y |
| World.EmptyWorld | Assets/Scripts/ChunkManager.cs:117-119 | a world size of zero or less on either axis makes no chunks |
| World.SeamAlongX | Assets/Scripts/ChunkManager.cs:124-198 | the last vertex column of chunk (x, y) and the first of chunk (x + 1, y) have the same positions in the manager's frame (heights included) and the same UVs |
| World.SeamAlongZ | Assets/Scripts/ChunkManager.cs:124-198 | the same for chunk (x, y) and chunk (x, y + 1) along z |
| World.ChunkManager.constructor | Assets/Scripts/ChunkManager.cs:21-32 | a new manager holds the given world size, resolution and height field, and no chunks yet |
| World.ChunkManager.MakeChunk | Assets/Scripts/ChunkManager.cs:121-127 | the loop body gives exactly the chunk at counters (x, y): position (x * 128, 0, y * 128) and the mesh a fresh generator built there |
| World.ChunkManager.GenerateColumn | Assets/Scripts/ChunkManager.cs:119-128 | the inner loop appends, in increasing y, one chunk per y below worldSize.y |
| World.ChunkManager.GenerateChunks | Assets/Scripts/ChunkManager.cs:115-130 | appends, in loop order, one chunk per counter pair below worldSize, at (x * 128, 0, y * 128), with the mesh its generator built there |

## Left out

- Height synthesis (lines 170-187): Perlin noise, the sine falloff around `worldCentre`, the secondary noise layers and the height scale. These are floating-point engine calls. The model takes the heights as an arbitrary function of the integer sample point.
- `worldCentre` (line 111) is used only by the height synthesis, which is a parameter here.
- Floating-point rounding: vertex coordinates `x * (128f / resolution)` and UVs are exact reals. Chunk positions `x * 128f` are exact integers, as floats hold them exactly for x below 2^17.
- Terrain.TerrainGenerator.Generate: requires 1 <= resolution <= 18918. `resolution = 0` throws (integer division by zero) at line 168. A negative resolution skips the vertex and triangle loops (lines 164, 204), yet the arrays are still allocated with (resolution + 1)^2 and resolution * resolution * 6 entries: the vertices stay at the origin, the UV loop (lines 196-199) gives every UV the chunk origin, and every index is 0. For -1 that is no vertex and six 0 indices. Above 18918, `resolution * resolution * 6` overflows a 32-bit int. None of these cases is modelled.
- Terrain.TerrainGenerator.Generate: it reads `resolution` (line 157), `worldCentre` (line 162) and `islandRadius` (line 170) from the `ChunkManager` singleton. The noise intensity, seed, height and secondary-noise flag are its own arguments (line 154, passed at line 127). Here the resolution is a parameter, and everything else feeds the height field parameter.
- The bound 18918 is only the 32-bit limit of the index arithmetic. A Unity mesh uses 16-bit indices by default, so at most 65535 vertices. The assignments at lines 222-223 therefore fail from resolution 255 on ((255 + 1)^2 = 65536 vertices). The hand-off to the engine mesh is not modelled.
- World.ChunkManager.GenerateChunks: requires 1 <= resolution <= 18918, as Generate does (and so do `GenerateColumn` and `MakeChunk`). The source runs its loops for any resolution. When at least one chunk is made, resolution 0 throws, a negative resolution builds the degenerate meshes described above, and a resolution above 18918 overflows. With a world size of zero or less on either axis, no chunk is made and nothing fails whatever the resolution. The model covers only the valid range.
- Terrain.FillCellRow: does not state that the slots after row x keep their values. The outer loop does not rely on them, and `FillTriangles` and `Generate` state the whole final array.
- Terrain.TerrainGenerator.Generate: the new arrays are built in local arrays and then assigned to the fields. The source assigns the fields first and fills them in place. Nothing else reads them in between, so the final state is the same.
- Unity plumbing: `Init`'s component lookups, the `GameObject`, its name string and parent, `mesh.Clear`, `RecalculateNormals`, `RecalculateBounds`, the collider and the material (lines 121-126, 146-152, 221-230). `Init` is modelled only as attaching the generator to the chunk's local position.
- `Awake`, `SecondaryNoiseON` and `SecondaryNoiseOFF` (lines 75-106): float transform and height tweaks driven by editor buttons.
- Inspector attributes, value dropdowns and `RandomSeed` (lines 15-66): editor UI and randomness.
