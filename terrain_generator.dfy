/** TerrainGenerator: builds the mesh of one chunk into its vertex, UV and
    index arrays, which Generate overwrites on every call. */
module Terrain {
  import opened Grid
  import opened Mesh

  /** A position in world units; chunk positions have integer coordinates. */
  datatype Position = Position(x: int, y: int, z: int)

  class TerrainGenerator {
    /** Local position of the chunk object the generator was attached to. */
    var position: Position
    var verts: array<Vertex>
    var triangles: array<int>
    var uvs: array<Uv>

    constructor ()
      ensures position == Position(0, 0, 0)
      ensures verts.Length == 0 && triangles.Length == 0 && uvs.Length == 0
    {
      position := Position(0, 0, 0);
      verts := new Vertex[0];
      triangles := new int[0];
      uvs := new Uv[0];
    }

    /** Attaches the generator to the chunk object placed at p. */
    method Init(p: Position)
      modifies this`position
      ensures position == p
    {
      position := p;
    }

    /** Builds the chunk mesh for the given resolution; field gives the height
        at each integer world sample point. The chunk's world origin is
        (position.x, position.z). */
    method Generate(resolution: int, field: HeightField)
      requires ValidResolution(resolution)
      modifies this`verts, this`uvs, this`triangles
      ensures fresh(verts) && fresh(uvs) && fresh(triangles)
      ensures verts[..] == VertexBuffer(resolution, position.x, position.z, field)
      ensures uvs[..] == UvBuffer(verts[..], position.x, position.z)
      ensures triangles[..] == TriangleIndices(resolution)
    {
      var worldX, worldZ := position.x, position.z;
      var vs := new Vertex[(resolution + 1) * (resolution + 1)];
      var us := new Uv[vs.Length];
      FillVertices(vs, resolution, worldX, worldZ, field);
      FillUvs(us, vs, worldX, worldZ);
      var ts := new int[resolution * resolution * 6];
      FillTriangles(ts, resolution);
      verts, uvs, triangles := vs, us, ts;
    }
  }

  /** The vertex loop: grid point (x, z) goes to the slot of the running
      cursor i, which is always x * (resolution + 1) + z. */
  method FillVertices(vs: array<Vertex>, resolution: int, worldX: int, worldZ: int, field: HeightField)
    requires ValidResolution(resolution) && vs.Length == VertexCount(resolution)
    modifies vs
    ensures vs[..] == VertexBuffer(resolution, worldX, worldZ, field)
  {
    var i, x := 0, 0;
    while x <= resolution
      invariant 0 <= x <= resolution + 1
      invariant i == VertexSlot(x, 0, resolution) <= vs.Length
      invariant vs[..i] == VertexRows(resolution, worldX, worldZ, field, x)
    {
      SlotBelow(x, resolution, resolution + 1, resolution + 1);
      i := FillVertexRow(vs, resolution, worldX, worldZ, field, x, i);
      SlotNextRow(x, resolution + 1);
      x := x + 1;
    }
    assert vs[..] == vs[..i];
  }

  /** The inner vertex loop for row x: the vertices of grid points (x, 0) ..
      (x, resolution) go after the rows before it, and the cursor comes back
      advanced past the row. */
  method FillVertexRow(vs: array<Vertex>, resolution: int, worldX: int, worldZ: int, field: HeightField,
                       x: nat, i0: int) returns (i: int)
    requires ValidResolution(resolution) && x <= resolution
    requires i0 == VertexSlot(x, 0, resolution) && VertexSlot(x, resolution, resolution) < vs.Length
    requires vs[..i0] == VertexRows(resolution, worldX, worldZ, field, x)
    modifies vs
    ensures i == i0 + resolution + 1 <= vs.Length
    ensures vs[..i] == VertexRows(resolution, worldX, worldZ, field, x + 1)
    ensures vs[i..] == old(vs[i..])
  {
    ghost var row := VertexRow(resolution, worldX, worldZ, field, x);
    i := i0;
    var z := 0;
    while z <= resolution
      invariant 0 <= z <= resolution + 1
      invariant i == VertexSlot(x, z, resolution) <= vs.Length
      invariant vs[..i] == VertexRows(resolution, worldX, worldZ, field, x) + row[..z]
      invariant forall k :: i0 + resolution + 1 <= k < vs.Length ==> vs[k] == old(vs[k])
    {
      var height := field(worldX + SampleOffset(x, resolution), worldZ + SampleOffset(z, resolution));
      ghost var before := vs[..i];
      vs[i] := Vertex(LocalCoord(x, resolution), height, LocalCoord(z, resolution));
      assert vs[..i + 1] == VertexRows(resolution, worldX, worldZ, field, x) + row[..z + 1] by {
        assert vs[i] == row[z];
        assert row[..z + 1] == row[..z] + [row[z]];
        assert vs[..i + 1] == before + [vs[i]];
      }
      i := i + 1;
      z := z + 1;
    }
    assert row[..resolution + 1] == row;
    assert vs[i..] == old(vs[i..]);
  }

  /** The UV loop: slot k is computed from vertex k and the chunk origin. */
  method FillUvs(us: array<Uv>, vs: array<Vertex>, worldX: int, worldZ: int)
    requires us.Length == vs.Length
    modifies us
    ensures us[..] == UvBuffer(vs[..], worldX, worldZ)
  {
    var i := 0;
    while i < us.Length
      invariant 0 <= i <= us.Length
      invariant forall k :: 0 <= k < i ==> us[k] == Uv(vs[k].x + worldX as real, vs[k].z + worldZ as real)
    {
      us[i] := Uv(vs[i].x + worldX as real, vs[i].z + worldZ as real);
      i := i + 1;
    }
  }

  /** The triangle loop: cursor tris advances by six per cell, cursor vert by
      one per cell and once more per row, so at cell (x, y) it is
      x * (resolution + 1) + y. */
  method FillTriangles(ts: array<int>, resolution: int)
    requires ValidResolution(resolution) && ts.Length == IndexCount(resolution)
    modifies ts
    ensures ts[..] == TriangleIndices(resolution)
  {
    var tris, vert := 0, 0;
    var x := 0;
    while x < resolution
      invariant 0 <= x <= resolution
      invariant tris == CellSlot(x, 0, 0, resolution) <= ts.Length
      invariant vert == VertexSlot(x, 0, resolution)
      invariant ts[..tris] == CellRows(x, resolution)
    {
      tris, vert := FillCellRow(ts, resolution, x, tris, vert);
      assert tris == CellSlot(x + 1, 0, 0, resolution) && vert + 1 == VertexSlot(x + 1, 0, resolution) by {
        SlotNextRow(x, resolution);
        SlotNextRow(x, resolution + 1);
      }
      vert := vert + 1;
      x := x + 1;
    }
    assert ts[..] == ts[..tris];
  }

  /** The inner triangle loop for row x: the cells (x, 0) .. (x, resolution - 1)
      go after the rows before it, and the cursors come back advanced past
      the row. */
  method FillCellRow(ts: array<int>, resolution: int, x: int, tris0: int, vert0: int) returns (tris: int, vert: int)
    requires ValidResolution(resolution) && ts.Length == IndexCount(resolution) && 0 <= x < resolution
    requires tris0 == CellSlot(x, 0, 0, resolution) <= ts.Length && vert0 == VertexSlot(x, 0, resolution)
    requires ts[..tris0] == CellRows(x, resolution)
    modifies ts
    ensures tris == CellSlot(x, resolution, 0, resolution) <= ts.Length && vert == VertexSlot(x, resolution, resolution)
    ensures ts[..tris] == CellRows(x + 1, resolution)
  {
    tris, vert := tris0, vert0;
    var y := 0;
    while y < resolution
      invariant 0 <= y <= resolution
      invariant tris == CellSlot(x, y, 0, resolution) && vert == VertexSlot(x, y, resolution)
      invariant 0 <= tris <= ts.Length
      invariant ts[..tris] == CellRows(x, resolution) + CellRow(x, y, resolution)
    {
      CellFits(resolution, x, y);
      ghost var before := ts[..];
      WriteCell(ts, tris, vert, resolution);
      CellAppended(before, ts[..], resolution, x, y, tris, vert);
      vert := vert + 1;
      tris := tris + 6;
      y := y + 1;
    }
  }

  /** The body of the triangle loop: the two triangles of the cell whose
      first corner is vertex vert go to the six slots from tris on. */
  method WriteCell(ts: array<int>, tris: int, vert: int, resolution: int)
    requires 0 <= tris && tris + 6 <= ts.Length
    modifies ts
    ensures ts[..tris] == old(ts[..tris])
    ensures ts[tris..tris + 6] == [vert, vert + 1, vert + resolution + 1, vert + 1, vert + resolution + 2, vert + resolution + 1]
    ensures ts[tris + 6..] == old(ts[tris + 6..])
  {
    ts[tris + 0] := vert + 0;
    ts[tris + 1] := vert + 1;
    ts[tris + 2] := vert + resolution + 1;
    ts[tris + 3] := vert + 1;
    ts[tris + 4] := vert + resolution + 2;
    ts[tris + 5] := vert + resolution + 1;
  }

  /** The six slots of cell (x, y) lie inside the index buffer. */
  lemma CellFits(resolution: int, x: int, y: int)
    requires ValidResolution(resolution) && 0 <= x < resolution && 0 <= y < resolution
    ensures 0 <= CellSlot(x, y, 0, resolution) && CellSlot(x, y, 0, resolution) + 6 <= IndexCount(resolution)
  {
    SlotBelow(x, y, resolution, resolution);
    SlotBelow(Slot(x, y, resolution), 5, 6, resolution * resolution);
  }

  /** One step of the triangle loop: writing the six indices of cell (x, y)
      after the cells before it extends the prefix by that cell. */
  lemma CellAppended(before: seq<int>, after: seq<int>, resolution: int, x: int, y: int, tris: int, vert: int)
    requires 0 <= resolution && 0 <= x && 0 <= y && 0 <= tris && tris + 6 <= |before| == |after|
    requires vert == VertexSlot(x, y, resolution)
    requires before[..tris] == CellRows(x, resolution) + CellRow(x, y, resolution)
    requires after[..tris] == before[..tris]
    requires after[tris..tris + 6] == [vert, vert + 1, vert + resolution + 1, vert + 1, vert + resolution + 2, vert + resolution + 1]
    ensures after[..tris + 6] == CellRows(x, resolution) + CellRow(x, y + 1, resolution)
  {
    var done, cell := CellRows(x, resolution) + CellRow(x, y, resolution), CellIndices(x, y, resolution);
    assert after[tris..tris + 6] == cell;
    assert after[..tris + 6] == done + cell by {
      assert after[..tris + 6] == after[..tris] + after[tris..tris + 6];
    }
    assert CellRow(x, y + 1, resolution) == CellRow(x, y, resolution) + cell;
  }
}
