/**
 * Primitive records of the BVH builder: one `PrimitiveInfo` per triangle,
 * how they are extracted from the meshes, and what a slice of them spans
 * (the union of their boxes, the union of their centroids, their triangle
 * indices).
 */
module Primitives {
  import opened Geometry

  /** Unity's Vector4 and Matrix4x4 (stored by rows). */
  datatype Vec4 = Vec4(x: real, y: real, z: real, w: real)
  datatype Matrix4x4 = Matrix4x4(row0: Vec4, row1: Vec4, row2: Vec4, row3: Vec4)

  function Dot4(r: Vec4, v: Vec4): real { r.x * v.x + r.y * v.y + r.z * v.z + r.w * v.w }

  /** `(Vector3)(m * Vector4FromVector3(p, 1))`: the product's w component is dropped. */
  function TransformPoint(m: Matrix4x4, p: Vec3): Vec3 {
    var v := Vec4(p.x, p.y, p.z, 1.0);
    Vec3(Dot4(m.row0, v), Dot4(m.row1, v), Dot4(m.row2, v))
  }

  /** The builder's per-mesh input: a model matrix and the mesh's run of triangle indices. */
  datatype MeshObject = MeshObject(modelMatrix: Matrix4x4, indexOffset: nat, triangleCount: nat)

  /** Every triangle of every mesh has its three indices in `indices`, each naming a vertex. */
  predicate MeshesValid(meshes: seq<MeshObject>, vertices: seq<Vec3>, indices: seq<int>) {
    forall m | 0 <= m < |meshes| ::
      && meshes[m].indexOffset + 3 * meshes[m].triangleCount <= |indices|
      && forall k | meshes[m].indexOffset <= k < meshes[m].indexOffset + 3 * meshes[m].triangleCount ::
           0 <= indices[k] < |vertices|
  }

  /** PrimitiveInfo: a triangle's first index position, its mesh, its box and its box's centre. */
  datatype PrimitiveInfo = PrimitiveInfo(primIndex: int, meshIndex: int, bounds: Box, center: Vec3)

  /** The triangle's three indices can be read at `primIndex`, `primIndex + 1`, `primIndex + 2`. */
  predicate IndicesValid(p: PrimitiveInfo, indices: seq<int>) {
    0 <= p.primIndex && p.primIndex + 2 < |indices|
  }

  predicate AllIndicesValid(s: seq<PrimitiveInfo>, indices: seq<int>) {
    forall i | 0 <= i < |s| :: IndicesValid(s[i], indices)
  }

  /** The box of a triangle: the componentwise minimum and maximum of its three corners. */
  function TriangleBox(v1: Vec3, v2: Vec3, v3: Vec3): (b: Box)
    ensures IsProper(b) && ContainsPoint(b, v1) && ContainsPoint(b, v2) && ContainsPoint(b, v3)
  {
    Box(Min3(v1, Min3(v2, v3)), Max3(v1, Max3(v2, v3)))
  }

  /** `Minimum + 0.5 * (Maximum - Minimum)`: the centre of the box. */
  function Center(b: Box): (c: Vec3)
    ensures forall d: Axis :: 2.0 * Component(c, d) == Component(b.minimum, d) + Component(b.maximum, d)
    ensures IsProper(b) ==> ContainsPoint(b, c)
  {
    Add(b.minimum, Half(Sub(b.maximum, b.minimum)))
  }

  /** Corner `j` of triangle `i` of mesh `meshId`, in world space. */
  function Corner(meshes: seq<MeshObject>, vertices: seq<Vec3>, indices: seq<int>, meshId: nat, i: nat, j: nat): Vec3
    requires MeshesValid(meshes, vertices, indices)
    requires meshId < |meshes| && i < meshes[meshId].triangleCount && j < 3
  {
    var k := meshes[meshId].indexOffset + i * 3 + j;
    assert 0 <= indices[k] < |vertices|;
    TransformPoint(meshes[meshId].modelMatrix, vertices[indices[k]])
  }

  /** The record CreatePrimitiveInfos makes for triangle `i` of mesh `meshId`. */
  function MakePrimitive(meshes: seq<MeshObject>, vertices: seq<Vec3>, indices: seq<int>, meshId: nat, i: nat): (p: PrimitiveInfo)
    requires MeshesValid(meshes, vertices, indices)
    requires meshId < |meshes| && i < meshes[meshId].triangleCount
    ensures p.primIndex == meshes[meshId].indexOffset + 3 * i && p.meshIndex == meshId
    ensures IndicesValid(p, indices)
    ensures IsProper(p.bounds) && ContainsPoint(p.bounds, p.center)
    ensures forall d: Axis :: 2.0 * Component(p.center, d) ==
              Component(p.bounds.minimum, d) + Component(p.bounds.maximum, d)
  {
    var bounds := TriangleBox(Corner(meshes, vertices, indices, meshId, i, 0),
                              Corner(meshes, vertices, indices, meshId, i, 1),
                              Corner(meshes, vertices, indices, meshId, i, 2));
    PrimitiveInfo(meshes[meshId].indexOffset + i * 3, meshId, bounds, Center(bounds))
  }

  /** The records of the first `n` triangles of mesh `meshId`, in triangle order. */
  function MeshPrimitives(meshes: seq<MeshObject>, vertices: seq<Vec3>, indices: seq<int>, meshId: nat, n: nat): (r: seq<PrimitiveInfo>)
    requires MeshesValid(meshes, vertices, indices)
    requires meshId < |meshes| && n <= meshes[meshId].triangleCount
    ensures |r| == n
  {
    seq(n, i requires 0 <= i < n => MakePrimitive(meshes, vertices, indices, meshId, i))
  }

  /** The records of every triangle of the first `m` meshes, mesh by mesh. */
  function AllPrimitives(meshes: seq<MeshObject>, vertices: seq<Vec3>, indices: seq<int>, m: nat): seq<PrimitiveInfo>
    requires MeshesValid(meshes, vertices, indices) && m <= |meshes|
  {
    if m == 0 then []
    else AllPrimitives(meshes, vertices, indices, m - 1) + MeshPrimitives(meshes, vertices, indices, m - 1, meshes[m - 1].triangleCount)
  }

  /** The number of triangles in the first `m` meshes. */
  function TrianglesBefore(meshes: seq<MeshObject>, m: nat): nat
    requires m <= |meshes|
  {
    if m == 0 then 0 else TrianglesBefore(meshes, m - 1) + meshes[m - 1].triangleCount
  }

  /**
   * Extraction emits one record per triangle, mesh by mesh and within a mesh
   * triangle by triangle: triangle `i` of mesh `meshId` is record number
   * TrianglesBefore(meshId) + i, carrying that mesh's index and the position
   * of the triangle's first index.
   */
  lemma {:induction false} AllPrimitivesAt(meshes: seq<MeshObject>, vertices: seq<Vec3>, indices: seq<int>, m: nat, meshId: nat, i: nat)
    requires MeshesValid(meshes, vertices, indices) && m <= |meshes|
    requires meshId < m && i < meshes[meshId].triangleCount
    ensures |AllPrimitives(meshes, vertices, indices, m)| == TrianglesBefore(meshes, m)
    ensures TrianglesBefore(meshes, meshId) + i < TrianglesBefore(meshes, m)
    ensures AllPrimitives(meshes, vertices, indices, m)[TrianglesBefore(meshes, meshId) + i]
              == MakePrimitive(meshes, vertices, indices, meshId, i)
  {
    var a := AllPrimitives(meshes, vertices, indices, m - 1);
    var b := MeshPrimitives(meshes, vertices, indices, m - 1, meshes[m - 1].triangleCount);
    AllPrimitivesLength(meshes, vertices, indices, m - 1);
    var k := TrianglesBefore(meshes, meshId) + i;
    if meshId < m - 1 {
      AllPrimitivesAt(meshes, vertices, indices, m - 1, meshId, i);
    }
    AppendAt(a, b, k);
  }

  /** Indexing into a concatenation. */
  lemma AppendAt<T>(a: seq<T>, b: seq<T>, k: nat)
    requires k < |a| + |b|
    ensures k < |a| ==> (a + b)[k] == a[k]
    ensures |a| <= k ==> (a + b)[k] == b[k - |a|]
  {
  }

  lemma {:induction false} AllPrimitivesLength(meshes: seq<MeshObject>, vertices: seq<Vec3>, indices: seq<int>, m: nat)
    requires MeshesValid(meshes, vertices, indices) && m <= |meshes|
    ensures |AllPrimitives(meshes, vertices, indices, m)| == TrianglesBefore(meshes, m)
  {
    if m > 0 {
      AllPrimitivesLength(meshes, vertices, indices, m - 1);
      }
  }

  /** Every extracted record can read its triangle's three indices. */
  lemma {:induction false} AllPrimitivesIndicesValid(meshes: seq<MeshObject>, vertices: seq<Vec3>, indices: seq<int>, m: nat)
    requires MeshesValid(meshes, vertices, indices) && m <= |meshes|
    ensures AllIndicesValid(AllPrimitives(meshes, vertices, indices, m), indices)
  {
    if m > 0 {
      AllPrimitivesIndicesValid(meshes, vertices, indices, m - 1);
    }
  }

  // ---------------------------------------------------------------------
  // What a slice of records spans

  /** The union of the records' boxes, accumulated front to back. */
  function BoundsOf(s: seq<PrimitiveInfo>): Box
    requires |s| > 0
  {
    if |s| == 1 then s[0].bounds else Union(BoundsOf(s[..|s| - 1]), s[|s| - 1].bounds)
  }

  /** The union of the records' centroids, seeded with the first centroid. */
  function CentroidBoundsOf(s: seq<PrimitiveInfo>): Box
    requires |s| > 0
  {
    if |s| == 1 then Box(s[0].center, s[0].center) else UnionPoint(CentroidBoundsOf(s[..|s| - 1]), s[|s| - 1].center)
  }

  /** BoundsOf(s) encloses every record's box, and every box that does so encloses BoundsOf(s). */
  lemma {:induction false} BoundsOfIsLeast(s: seq<PrimitiveInfo>, c: Box)
    requires |s| > 0
    ensures forall i | 0 <= i < |s| :: ContainsBox(BoundsOf(s), s[i].bounds)
    ensures (forall i | 0 <= i < |s| :: ContainsBox(c, s[i].bounds)) ==> ContainsBox(c, BoundsOf(s))
  {
    if |s| > 1 {
      BoundsOfIsLeast(s[..|s| - 1], c);
      assert forall i | 0 <= i < |s| - 1 :: s[..|s| - 1][i] == s[i];
    }
  }

  /** CentroidBoundsOf(s) encloses every centroid, and every box that does so encloses it. */
  lemma {:induction false} CentroidBoundsOfIsLeast(s: seq<PrimitiveInfo>, c: Box)
    requires |s| > 0
    ensures forall i | 0 <= i < |s| :: ContainsPoint(CentroidBoundsOf(s), s[i].center)
    ensures (forall i | 0 <= i < |s| :: ContainsPoint(c, s[i].center)) ==> ContainsBox(c, CentroidBoundsOf(s))
  {
    if |s| > 1 {
      CentroidBoundsOfIsLeast(s[..|s| - 1], c);
      assert forall i | 0 <= i < |s| - 1 :: s[..|s| - 1][i] == s[i];
    }
  }

  /** Reordering a slice changes neither the union of its boxes nor that of its centroids. */
  lemma BoundsOfPermutation(s: seq<PrimitiveInfo>, t: seq<PrimitiveInfo>)
    requires |s| > 0 && multiset(s) == multiset(t)
    ensures |t| > 0
    ensures BoundsOf(s) == BoundsOf(t)
    ensures CentroidBoundsOf(s) == CentroidBoundsOf(t)
  {
    assert s[0] in multiset(t);
    forall i | 0 <= i < |s| ensures s[i] in t {
      assert s[i] in multiset(s);
    }
    forall i | 0 <= i < |t| ensures t[i] in s {
      assert t[i] in multiset(t);
    }
    BoundsOfIsLeast(s, BoundsOf(t));
    BoundsOfIsLeast(t, BoundsOf(s));
    BoundsOfIsLeast(t, BoundsOf(t));
    BoundsOfIsLeast(s, BoundsOf(s));
    ContainsBoxAntisymmetric(BoundsOf(s), BoundsOf(t));
    CentroidBoundsOfIsLeast(s, CentroidBoundsOf(t));
    CentroidBoundsOfIsLeast(t, CentroidBoundsOf(s));
    CentroidBoundsOfIsLeast(t, CentroidBoundsOf(t));
    CentroidBoundsOfIsLeast(s, CentroidBoundsOf(s));
    ContainsBoxAntisymmetric(CentroidBoundsOf(s), CentroidBoundsOf(t));
  }

  /** The box of a split slice is the union of the boxes of its two parts. */
  lemma BoundsOfAppend(a: seq<PrimitiveInfo>, b: seq<PrimitiveInfo>)
    requires |a| > 0 && |b| > 0
    ensures BoundsOf(a + b) == Union(BoundsOf(a), BoundsOf(b))
  {
    var ab := a + b;
    BoundsOfIsLeast(a, BoundsOf(ab));
    BoundsOfIsLeast(b, BoundsOf(ab));
    BoundsOfIsLeast(ab, BoundsOf(ab));
    assert forall i | 0 <= i < |a| :: a[i] == ab[i];
    assert forall i | 0 <= i < |b| :: b[i] == ab[|a| + i];
    var u := Union(BoundsOf(a), BoundsOf(b));
    BoundsOfIsLeast(a, u);
    BoundsOfIsLeast(b, u);
    forall i | 0 <= i < |ab| ensures ContainsBox(u, ab[i].bounds) {
      if i < |a| { assert ab[i] == a[i]; } else { assert ab[i] == b[i - |a|]; }
    }
    BoundsOfIsLeast(ab, u);
    ContainsBoxAntisymmetric(BoundsOf(ab), u);
  }

  /** The minimum and the maximum of the centroid box along an axis are attained by records of the slice. */
  lemma {:induction false} CentroidExtremes(s: seq<PrimitiveInfo>, d: Axis) returns (lo: nat, hi: nat)
    requires |s| > 0
    ensures lo < |s| && Component(s[lo].center, d) == Component(CentroidBoundsOf(s).minimum, d)
    ensures hi < |s| && Component(s[hi].center, d) == Component(CentroidBoundsOf(s).maximum, d)
  {
    if |s| == 1 {
      lo, hi := 0, 0;
    } else {
      var n := |s| - 1;
      lo, hi := CentroidExtremes(s[..n], d);
      var prev := CentroidBoundsOf(s[..n]);
      assert s[..n][lo] == s[lo] && s[..n][hi] == s[hi];
      if Component(s[n].center, d) < Component(prev.minimum, d) {
        lo := n;
      }
      if Component(s[n].center, d) > Component(prev.maximum, d) {
        hi := n;
      }
    }
  }

  /** True iff every record of the slice belongs to the first record's mesh. */
  predicate AllSameMesh(s: seq<PrimitiveInfo>) {
    forall i | 0 <= i < |s| :: s[i].meshIndex == s[0].meshIndex
  }

  /** One more record keeps a range single-mesh exactly when it has the first record's mesh. */
  lemma AllSameMeshStep(s: seq<PrimitiveInfo>, p: PrimitiveInfo)
    ensures s == [] ==> AllSameMesh(s + [p])
    ensures s != [] ==> (AllSameMesh(s + [p]) <==> AllSameMesh(s) && p.meshIndex == s[0].meshIndex)
  {
    if s != [] && AllSameMesh(s + [p]) {
      assert (s + [p])[|s|] == p;
      forall i | 0 <= i < |s| ensures s[i].meshIndex == s[0].meshIndex {
        assert (s + [p])[i] == s[i];
      }
    }
  }

  // ---------------------------------------------------------------------
  // The triangle indices of a slice

  /** The three indices of each record's triangle, record after record. */
  function TriangleIndices(indices: seq<int>, s: seq<PrimitiveInfo>): (r: seq<int>)
    requires AllIndicesValid(s, indices)
    ensures |r| == 3 * |s|
  {
    if s == [] then []
    else
      var p := s[|s| - 1];
      TriangleIndices(indices, s[..|s| - 1]) + [indices[p.primIndex], indices[p.primIndex + 1], indices[p.primIndex + 2]]
  }

  /** Position 3k + j of the output holds index j of record k's triangle. */
  lemma {:induction false} TriangleIndicesAt(indices: seq<int>, s: seq<PrimitiveInfo>, k: nat, j: nat)
    requires AllIndicesValid(s, indices) && k < |s| && j < 3
    ensures TriangleIndices(indices, s)[3 * k + j] == indices[s[k].primIndex + j]
  {
    if k < |s| - 1 {
      TriangleIndicesAt(indices, s[..|s| - 1], k, j);
    }
  }

  /** The indices of a split slice are those of its first part followed by those of its second. */
  lemma {:induction false} TriangleIndicesAppend(indices: seq<int>, a: seq<PrimitiveInfo>, b: seq<PrimitiveInfo>)
    requires AllIndicesValid(a, indices) && AllIndicesValid(b, indices)
    ensures AllIndicesValid(a + b, indices)
    ensures TriangleIndices(indices, a + b) == TriangleIndices(indices, a) + TriangleIndices(indices, b)
  {
    var ab := a + b;
    assert AllIndicesValid(ab, indices) by {
      forall i | 0 <= i < |ab| ensures IndicesValid(ab[i], indices) {
        if i < |a| { assert ab[i] == a[i]; } else { assert ab[i] == b[i - |a|]; }
      }
    }
    if b != [] {
      var n := |b| - 1;
      var p := b[n];
      assert ab[..|ab| - 1] == a + b[..n];
      assert ab[|ab| - 1] == p;
      assert AllIndicesValid(b[..n], indices) by {
        forall i | 0 <= i < n ensures IndicesValid(b[..n][i], indices) {
          assert b[..n][i] == b[i];
        }
      }
      assert b == b[..n] + [p];
      var tail := [indices[p.primIndex], indices[p.primIndex + 1], indices[p.primIndex + 2]];
      assert TriangleIndices(indices, ab) == TriangleIndices(indices, a + b[..n]) + tail;
      assert TriangleIndices(indices, b) == TriangleIndices(indices, b[..n]) + tail;
      TriangleIndicesAppend(indices, a, b[..n]);
    } else {
      assert ab == a;
    }
  }
}
