/**
  The geometry a chunk's mesher emits: the constant tables of the voxel
  faces, the per-voxel-id mesh record and what appending one face to a
  record does. All coordinates are integers: the source computes them from
  integer fields before storing them as floats.
*/
module ChunkGeometry {
  import opened SaveInfo

  datatype Vec3 = Vec3(x: int, y: int, z: int)

  /** `FColor(r, g, b, a)`; the mesher stores the face direction in `a`. */
  datatype Color = Color(r: int, g: int, b: int, a: int)

  /** `FProcMeshTangent`: no record ever holds one. */
  datatype Tangent = Tangent(tangentX: Vec3, flipTangentY: bool)

  /** `FVoxelMeshInformation`: the mesh section of one voxel id. */
  datatype MeshRecord = MeshRecord(
    vertices: seq<Vec3>,
    triangles: seq<int>,
    normals: seq<Vec3>,
    uvs: seq<Vec2i>,
    vertexColors: seq<Color>,
    tangents: seq<Tangent>,
    elementID: int)

  const EmptyRecord := MeshRecord([], [], [], [], [], [], 0)

  /** `bTriangles`: two triangles over a quad's four vertices. */
  const BTriangles: seq<int> := [2, 1, 0, 0, 3, 2]

  /** `bUVs`. */
  const BUVs: seq<Vec2i> := [Vec2i(0, 0), Vec2i(0, 1), Vec2i(1, 1), Vec2i(1, 0)]

  /** `bMask`: the six face directions, +Z, -Z, +Y, -Y, +X, -X. */
  const BMask: seq<Vec3> := [Vec3(0, 0, 1), Vec3(0, 0, -1), Vec3(0, 1, 0), Vec3(0, -1, 0), Vec3(1, 0, 0), Vec3(-1, 0, 0)]

  /** `bNormals0` to `bNormals5`. */
  const BNormals: seq<seq<Vec3>> := [
    [Vec3(0, 0, 1), Vec3(0, 0, 1), Vec3(0, 0, 1), Vec3(0, 0, 1)],
    [Vec3(0, 0, -1), Vec3(0, 0, -1), Vec3(0, 0, -1), Vec3(0, 0, -1)],
    [Vec3(0, 1, 0), Vec3(0, 1, 0), Vec3(0, 1, 0), Vec3(0, 1, 0)],
    [Vec3(0, -1, 0), Vec3(0, -1, 0), Vec3(0, -1, 0), Vec3(0, -1, 0)],
    [Vec3(1, 0, 0), Vec3(1, 0, 0), Vec3(1, 0, 0), Vec3(1, 0, 0)],
    [Vec3(-1, 0, 0), Vec3(-1, 0, 0), Vec3(-1, 0, 0), Vec3(-1, 0, 0)]]

  /** The chunk fields the vertex positions are computed from. */
  datatype Sizes = Sizes(voxelSize: int, voxelSizeHalved: int, chunkOffset: int)

  /** The four corners of face `d` of voxel `(x, y, z)`, in the order the mesher appends them. */
  function FaceVertices(s: Sizes, x: int, y: int, z: int, d: int): seq<Vec3>
    requires 0 <= d < 6
  {
    Quad(s.chunkOffset + x * s.voxelSize, s.chunkOffset + (x + 1) * s.voxelSize,
         s.chunkOffset + y * s.voxelSize, s.chunkOffset + (y + 1) * s.voxelSize,
         -s.voxelSizeHalved + z * s.voxelSize, s.voxelSizeHalved + z * s.voxelSize, d)
  }

  /** The case table of the mesher, over the bounds of a voxel box. */
  function Quad(x0: int, x1: int, y0: int, y1: int, zb: int, zt: int, d: int): seq<Vec3>
    requires 0 <= d < 6
  {
    match d
    case 0 => [Vec3(x1, y0, zt), Vec3(x1, y1, zt), Vec3(x0, y1, zt), Vec3(x0, y0, zt)]
    case 1 => [Vec3(x0, y0, zb), Vec3(x0, y1, zb), Vec3(x1, y1, zb), Vec3(x1, y0, zb)]
    case 2 => [Vec3(x1, y1, zt), Vec3(x1, y1, zb), Vec3(x0, y1, zb), Vec3(x0, y1, zt)]
    case 3 => [Vec3(x0, y0, zt), Vec3(x0, y0, zb), Vec3(x1, y0, zb), Vec3(x1, y0, zt)]
    case 4 => [Vec3(x1, y0, zt), Vec3(x1, y0, zb), Vec3(x1, y1, zb), Vec3(x1, y1, zt)]
    case 5 => [Vec3(x0, y1, zt), Vec3(x0, y1, zb), Vec3(x0, y0, zb), Vec3(x0, y0, zt)]
  }

  function Shifted(ts: seq<int>, base: int): seq<int> {
    seq(|ts|, k requires 0 <= k < |ts| => ts[k] + base)
  }

  /**
    One emitted face appended to a record: the two triangles over the four
    new vertices, the face's normals, the UVs and four colours whose alpha is
    the direction. `elementID` is advanced per voxel, not per face.
  */
  function AddFace(r: MeshRecord, s: Sizes, x: int, y: int, z: int, d: int): MeshRecord
    requires 0 <= d < 6
  {
    var c := Color(255, 255, 255, d);
    r.(triangles := r.triangles + Shifted(BTriangles, |r.vertices|),
       vertices := r.vertices + FaceVertices(s, x, y, z, d),
       normals := r.normals + BNormals[d],
       uvs := r.uvs + BUVs,
       vertexColors := r.vertexColors + [c, c, c, c])
  }

  /**
    The arrays of a record agree: one normal, UV and colour per vertex, the
    normal being the direction held in the colour's alpha, two triangles per
    four vertices, every triangle index a vertex, and no tangents.
  */
  ghost predicate Consistent(r: MeshRecord) {
    && |r.normals| == |r.vertices| && |r.uvs| == |r.vertices| && |r.vertexColors| == |r.vertices|
    && 2 * |r.triangles| == 3 * |r.vertices| && |r.vertices| % 4 == 0
    && r.tangents == []
    && (forall k :: 0 <= k < |r.triangles| ==> 0 <= r.triangles[k] < |r.vertices|)
    && (forall k :: 0 <= k < |r.vertexColors| ==> 0 <= r.vertexColors[k].a < 6 && r.normals[k] == BMask[r.vertexColors[k].a])
  }

  /** Between voxels, `elementID` also counts the vertices. */
  ghost predicate WellFormed(r: MeshRecord) {
    Consistent(r) && r.elementID == |r.vertices|
  }

  /** `bNormals<i>` is four copies of `bMask[i]`. */
  lemma NormalsAreMask(d: int)
    requires 0 <= d < 6
    ensures BNormals[d] == [BMask[d], BMask[d], BMask[d], BMask[d]]
  {
  }

  /** A fresh record holds nothing. */
  lemma EmptyRecordWellFormed()
    ensures WellFormed(EmptyRecord) && |EmptyRecord.vertices| == 0
  {
  }

  /** Appending a face adds four vertices, six triangle indices and keeps what was there. */
  lemma AddFaceShape(r: MeshRecord, s: Sizes, x: int, y: int, z: int, d: int)
    requires 0 <= d < 6
    ensures var r' := AddFace(r, s, x, y, z, d);
      && |r'.vertices| == |r.vertices| + 4 && |r'.triangles| == |r.triangles| + 6
      && |r'.normals| == |r.normals| + 4 && |r'.uvs| == |r.uvs| + 4 && |r'.vertexColors| == |r.vertexColors| + 4
      && r'.tangents == r.tangents && r'.elementID == r.elementID
      && r'.vertices[..|r.vertices|] == r.vertices && r'.triangles[..|r.triangles|] == r.triangles
  {
    assert |FaceVertices(s, x, y, z, d)| == 4;
  }

  /**
    A face keeps the earlier triangle indices and appends `{2,1,0,0,3,2}`
    shifted by the vertex count before it, so all six point at the four new
    vertices.
  */
  lemma AddFaceTriangles(r: MeshRecord, s: Sizes, x: int, y: int, z: int, d: int)
    requires 0 <= d < 6
    ensures var r', n := AddFace(r, s, x, y, z, d), |r.vertices|;
      r'.triangles == r.triangles + [n + 2, n + 1, n, n, n + 3, n + 2]
    ensures var r' := AddFace(r, s, x, y, z, d);
      forall k :: |r.triangles| <= k < |r'.triangles| ==> |r.vertices| <= r'.triangles[k] < |r.vertices| + 4
  {
  }

  lemma AddFaceIndices(r: MeshRecord, s: Sizes, x: int, y: int, z: int, d: int)
    requires 0 <= d < 6 && |r.vertices| + 4 == |AddFace(r, s, x, y, z, d).vertices|
    requires forall k :: 0 <= k < |r.triangles| ==> 0 <= r.triangles[k] < |r.vertices|
    ensures var r' := AddFace(r, s, x, y, z, d);
      forall k :: 0 <= k < |r'.triangles| ==> 0 <= r'.triangles[k] < |r'.vertices|
  {
    var r' := AddFace(r, s, x, y, z, d);
    AddFaceTriangles(r, s, x, y, z, d);
    forall k | 0 <= k < |r'.triangles|
      ensures 0 <= r'.triangles[k] < |r'.vertices|
    {
      if k < |r.triangles| {
        assert r'.triangles[k] == r.triangles[k];
      }
    }
  }

  lemma AddFaceNormals(r: MeshRecord, s: Sizes, x: int, y: int, z: int, d: int)
    requires 0 <= d < 6 && |r.normals| == |r.vertexColors|
    requires forall k :: 0 <= k < |r.vertexColors| ==> 0 <= r.vertexColors[k].a < 6 && r.normals[k] == BMask[r.vertexColors[k].a]
    ensures var r' := AddFace(r, s, x, y, z, d);
      forall k :: 0 <= k < |r'.vertexColors| ==> 0 <= r'.vertexColors[k].a < 6 && r'.normals[k] == BMask[r'.vertexColors[k].a]
  {
    var r' := AddFace(r, s, x, y, z, d);
    var c := Color(255, 255, 255, d);
    forall k | 0 <= k < |r'.vertexColors|
      ensures 0 <= r'.vertexColors[k].a < 6 && r'.normals[k] == BMask[r'.vertexColors[k].a]
    {
      if k < |r.vertexColors| {
        assert r'.vertexColors[k] == r.vertexColors[k] && r'.normals[k] == r.normals[k];
      } else {
        assert r'.vertexColors[k] == c && r'.normals[k] == BNormals[d][k - |r.normals|];
      }
    }
  }

  /**
    Appending a face keeps a record consistent; its triangle indices all
    point at its own four new vertices.
  */
  lemma AddFaceConsistent(r: MeshRecord, s: Sizes, x: int, y: int, z: int, d: int)
    requires 0 <= d < 6 && Consistent(r)
    ensures Consistent(AddFace(r, s, x, y, z, d))
  {
    AddFaceShape(r, s, x, y, z, d);
    AddFaceIndices(r, s, x, y, z, d);
    AddFaceNormals(r, s, x, y, z, d);
  }

  /** The coordinate of `v` along axis `d / 2`: z for the first two faces, then y, then x. */
  function Along(v: Vec3, d: int): int {
    if d < 2 then v.z else if d < 4 then v.y else v.x
  }

  function Sub(a: Vec3, b: Vec3): Vec3 {
    Vec3(a.x - b.x, a.y - b.y, a.z - b.z)
  }

  function Cross(a: Vec3, b: Vec3): Vec3 {
    Vec3(a.y * b.z - a.z * b.y, a.z * b.x - a.x * b.z, a.x * b.y - a.y * b.x)
  }

  function Scale(k: int, v: Vec3): Vec3 {
    Vec3(k * v.x, k * v.y, k * v.z)
  }

  /** The plane of face `d` of voxel `(x, y, z)`, as a coordinate along the face's axis. */
  function FacePlane(s: Sizes, x: int, y: int, z: int, d: int): int {
    match d
    case 0 => s.voxelSizeHalved + z * s.voxelSize
    case 1 => -s.voxelSizeHalved + z * s.voxelSize
    case 2 => s.chunkOffset + (y + 1) * s.voxelSize
    case 3 => s.chunkOffset + y * s.voxelSize
    case 4 => s.chunkOffset + (x + 1) * s.voxelSize
    case _ => s.chunkOffset + x * s.voxelSize
  }

  /** The four corners of a face lie on the face's plane. */
  lemma FaceOnPlane(s: Sizes, x: int, y: int, z: int, d: int)
    requires 0 <= d < 6
    ensures forall k :: 0 <= k < 4 ==> Along(FaceVertices(s, x, y, z, d)[k], d) == FacePlane(s, x, y, z, d)
  {
  }

  /** The area factor of a face: a side of `voxelSize` by `voxelSize`, or by twice `voxelSizeHalved`. */
  function FaceArea(s: Sizes, d: int): int {
    if d < 2 then s.voxelSize * s.voxelSize else s.voxelSize * (2 * s.voxelSizeHalved)
  }

  /** Both triangles of a quad have the edge cross product `-area` times the quad's direction. */
  predicate WoundAgainst(v: seq<Vec3>, area: int, d: int)
    requires |v| == 4 && 0 <= d < 6
  {
    && Cross(Sub(v[BTriangles[1]], v[BTriangles[0]]), Sub(v[BTriangles[2]], v[BTriangles[0]])) == Scale(-area, BMask[d])
    && Cross(Sub(v[BTriangles[4]], v[BTriangles[3]]), Sub(v[BTriangles[5]], v[BTriangles[3]])) == Scale(-area, BMask[d])
  }

  lemma QuadWinding(x0: int, y0: int, zb: int, a: int, t: int, d: int)
    requires 0 <= d < 6
    ensures |Quad(x0, x0 + a, y0, y0 + a, zb, zb + t, d)| == 4
    ensures WoundAgainst(Quad(x0, x0 + a, y0, y0 + a, zb, zb + t, d), if d < 2 then a * a else a * t, d)
  {
    if d < 2 {
      ZWinding(x0, y0, zb, a, t, d);
    } else if d < 4 {
      YWinding(x0, y0, zb, a, t, d);
    } else {
      XWinding(x0, y0, zb, a, t, d);
    }
  }

  lemma ZWinding(x0: int, y0: int, zb: int, a: int, t: int, d: int)
    requires 0 <= d < 2
    ensures |Quad(x0, x0 + a, y0, y0 + a, zb, zb + t, d)| == 4
    ensures WoundAgainst(Quad(x0, x0 + a, y0, y0 + a, zb, zb + t, d), a * a, d)
  {
    assert a * (-a) == -(a * a) && (-a) * a == -(a * a);
  }

  lemma YWinding(x0: int, y0: int, zb: int, a: int, t: int, d: int)
    requires 2 <= d < 4
    ensures |Quad(x0, x0 + a, y0, y0 + a, zb, zb + t, d)| == 4
    ensures WoundAgainst(Quad(x0, x0 + a, y0, y0 + a, zb, zb + t, d), a * t, d)
  {
    assert (-t) * (-a) == a * t && t * a == a * t && (-t) * a == -(a * t) && t * (-a) == -(a * t);
  }

  lemma XWinding(x0: int, y0: int, zb: int, a: int, t: int, d: int)
    requires 4 <= d < 6
    ensures |Quad(x0, x0 + a, y0, y0 + a, zb, zb + t, d)| == 4
    ensures WoundAgainst(Quad(x0, x0 + a, y0, y0 + a, zb, zb + t, d), a * t, d)
  {
    assert (-t) * (-a) == a * t && t * a == a * t && (-t) * a == -(a * t) && t * (-a) == -(a * t) && a * (-t) == -(a * t) && (-a) * t == -(a * t);
  }

  /**
    Both triangles of every face are wound the same way: their edge cross
    product is the face's area times minus its `bMask` direction.
  */
  lemma FaceWinding(s: Sizes, x: int, y: int, z: int, d: int)
    requires 0 <= d < 6
    ensures |FaceVertices(s, x, y, z, d)| == 4 && WoundAgainst(FaceVertices(s, x, y, z, d), FaceArea(s, d), d)
  {
    var a, x0, y0 := s.voxelSize, s.chunkOffset + x * s.voxelSize, s.chunkOffset + y * s.voxelSize;
    var zb := -s.voxelSizeHalved + z * s.voxelSize;
    assert s.chunkOffset + (x + 1) * a == x0 + a && s.chunkOffset + (y + 1) * a == y0 + a;
    assert s.voxelSizeHalved + z * a == zb + 2 * s.voxelSizeHalved;
    QuadWinding(x0, y0, zb, a, 2 * s.voxelSizeHalved, d);
  }
}
