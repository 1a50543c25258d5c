/**
 * PathTracer's scene bookkeeping: the shared list of path-traced objects,
 * the dirty flag that registration raises, the flattening of every object's
 * mesh into one vertex list, one index list and one mesh record per object,
 * and the sample counter that a rebuild or a camera move resets and each
 * rendered frame advances up to MaxSamples.
 *
 * An object's mesh (its vertices and the indices of its first submesh), its
 * local-to-world matrix and its material fields are inputs to the model.
 */
module Scene {
  import opened Geometry
  import Primitives
  import opened Lists

  /** C#'s uint: the sample counter and its cap. */
  newtype uint32 = x: int | 0 <= x < 0x1_0000_0000

  /** A PathTracingObject as the flattening sees it. */
  class PathTracingObject {
    const vertices: seq<Vec3>
    const indices: seq<int>
    const localToWorld: Primitives.Matrix4x4
    const materialType: int
    const albedo: Vec3
    const specular: Vec3
    const emissive: Vec3

    constructor(vertices: seq<Vec3>, indices: seq<int>, localToWorld: Primitives.Matrix4x4,
                materialType: int, albedo: Vec3, specular: Vec3, emissive: Vec3)
      ensures this.vertices == vertices && this.indices == indices && this.localToWorld == localToWorld
      ensures this.materialType == materialType && this.albedo == albedo && this.specular == specular && this.emissive == emissive
    {
      this.vertices, this.indices, this.localToWorld := vertices, indices, localToWorld;
      this.materialType, this.albedo, this.specular, this.emissive := materialType, albedo, specular, emissive;
    }
  }

  /** PathTracer.MeshObject: an object's matrix, where its indices start, its triangle count and its material's position. */
  datatype MeshObject = MeshObject(modelMatrix: Primitives.Matrix4x4, indexOffset: int, triangleCount: int, materialIndex: int)

  /** PathTracer.MaterialBufferObject. */
  datatype MaterialBufferObject = MaterialBufferObject(materialType: int, albedo: Vec3, specular: Vec3, emissive: Vec3)

  // ---------------------------------------------------------------------
  // What a rebuild produces

  /** Every object's vertices, object after object. */
  function FlatVertices(objs: seq<PathTracingObject>): seq<Vec3> {
    if objs == [] then [] else FlatVertices(objs[..|objs| - 1]) + objs[|objs| - 1].vertices
  }

  /** `indices.Select(index => index + offset)`. */
  function Shifted(indices: seq<int>, offset: int): (r: seq<int>)
    ensures |r| == |indices|
    ensures forall j | 0 <= j < |indices| :: r[j] == indices[j] + offset
  {
    seq(|indices|, j requires 0 <= j < |indices| => indices[j] + offset)
  }

  /** Every object's indices, object after object, each shifted by the number of vertices before its object. */
  function FlatIndices(objs: seq<PathTracingObject>): seq<int> {
    if objs == [] then []
    else
      var init := objs[..|objs| - 1];
      FlatIndices(init) + Shifted(objs[|objs| - 1].indices, |FlatVertices(init)|)
  }

  /** The material record of one object. */
  function MaterialOf(o: PathTracingObject): MaterialBufferObject {
    MaterialBufferObject(o.materialType, o.albedo, o.specular, o.emissive)
  }

  /** The material records of the objects, in order. */
  function MaterialsOf(objs: seq<PathTracingObject>): seq<MaterialBufferObject> {
    if objs == [] then [] else MaterialsOf(objs[..|objs| - 1]) + [MaterialOf(objs[|objs| - 1])]
  }

  /**
   * One mesh record per object: its matrix, the number of indices before it,
   * a third of its index count, and its material's position counted from
   * `firstMaterial`.
   */
  function MeshObjectsOf(objs: seq<PathTracingObject>, firstMaterial: int): seq<MeshObject> {
    if objs == [] then []
    else
      var init, o := objs[..|objs| - 1], objs[|objs| - 1];
      MeshObjectsOf(init, firstMaterial) + [MeshObject(o.localToWorld, |FlatIndices(init)|, |o.indices| / 3, firstMaterial + |init|)]
  }

  // ---------------------------------------------------------------------
  // Where each object lands

  /** The flat vertex list of a prefix of the objects is a prefix of the flat vertex list of all of them. */
  lemma {:induction false} VerticesPrefix(objs: seq<PathTracingObject>, k: nat)
    requires k <= |objs|
    ensures |FlatVertices(objs[..k])| <= |FlatVertices(objs)| && FlatVertices(objs)[..|FlatVertices(objs[..k])|] == FlatVertices(objs[..k])
    decreases |objs|
  {
    if k == |objs| {
      assert objs[..k] == objs;
    } else {
      var init := objs[..|objs| - 1];
      assert init[..k] == objs[..k];
      VerticesPrefix(init, k);
    }
  }

  /** The flat index list of a prefix of the objects is a prefix of the flat index list of all of them. */
  lemma {:induction false} IndicesPrefix(objs: seq<PathTracingObject>, k: nat)
    requires k <= |objs|
    ensures |FlatIndices(objs[..k])| <= |FlatIndices(objs)| && FlatIndices(objs)[..|FlatIndices(objs[..k])|] == FlatIndices(objs[..k])
    decreases |objs|
  {
    if k == |objs| {
      assert objs[..k] == objs;
    } else {
      var init := objs[..|objs| - 1];
      assert init[..k] == objs[..k];
      IndicesPrefix(init, k);
    }
  }

  /** One mesh record per object, and the records of a prefix of the objects are a prefix of the records of all of them. */
  lemma {:induction false} MeshesPrefix(objs: seq<PathTracingObject>, k: nat, firstMaterial: int)
    requires k <= |objs|
    ensures |MeshObjectsOf(objs, firstMaterial)| == |objs| && MeshObjectsOf(objs, firstMaterial)[..k] == MeshObjectsOf(objs[..k], firstMaterial)
    decreases |objs|
  {
    if k == |objs| {
      assert objs[..k] == objs;
      if objs != [] {
        MeshesPrefix(objs[..|objs| - 1], 0, firstMaterial);
      }
    } else {
      var init := objs[..|objs| - 1];
      assert init[..k] == objs[..k];
      MeshesPrefix(init, k, firstMaterial);
    }
  }

  /** A prefix followed by the next object: the step the rebuild loop takes. */
  lemma FlatStep(objs: seq<PathTracingObject>, k: nat, firstMaterial: int)
    requires k < |objs|
    ensures FlatVertices(objs[..k + 1]) == FlatVertices(objs[..k]) + objs[k].vertices
    ensures FlatIndices(objs[..k + 1]) == FlatIndices(objs[..k]) + Shifted(objs[k].indices, |FlatVertices(objs[..k])|)
    ensures MaterialsOf(objs[..k + 1]) == MaterialsOf(objs[..k]) + [MaterialOf(objs[k])]
    ensures MeshObjectsOf(objs[..k + 1], firstMaterial) == MeshObjectsOf(objs[..k], firstMaterial)
              + [MeshObject(objs[k].localToWorld, |FlatIndices(objs[..k])|, |objs[k].indices| / 3, firstMaterial + k)]
  {
    assert objs[..k + 1][..k] == objs[..k];
  }

  /** Object k's vertices sit in the flat vertex list right after those of the objects before it. */
  lemma VertexAt(objs: seq<PathTracingObject>, k: nat, j: nat)
    requires k < |objs| && j < |objs[k].vertices|
    ensures |FlatVertices(objs[..k])| + j < |FlatVertices(objs)|
    ensures FlatVertices(objs)[|FlatVertices(objs[..k])| + j] == objs[k].vertices[j]
  {
    assert objs[..k + 1][..k] == objs[..k];
    VerticesPrefix(objs, k + 1);
    var a, b := FlatVertices(objs[..k]), FlatVertices(objs[..k + 1]);
    assert b[|a| + j] == objs[k].vertices[j];
    assert FlatVertices(objs)[|a| + j] == FlatVertices(objs)[..|b|][|a| + j];
  }

  /**
   * Object k's indices sit in the flat index list right after those of the
   * objects before it, each shifted by the number of vertices before object k.
   */
  lemma IndexAt(objs: seq<PathTracingObject>, k: nat, j: nat)
    requires k < |objs| && j < |objs[k].indices|
    ensures |FlatIndices(objs[..k])| + j < |FlatIndices(objs)|
    ensures FlatIndices(objs)[|FlatIndices(objs[..k])| + j] == objs[k].indices[j] + |FlatVertices(objs[..k])|
  {
    assert objs[..k + 1][..k] == objs[..k];
    IndicesPrefix(objs, k + 1);
    var a, b := FlatIndices(objs[..k]), FlatIndices(objs[..k + 1]);
    assert b[|a| + j] == Shifted(objs[k].indices, |FlatVertices(objs[..k])|)[j];
    assert FlatIndices(objs)[|a| + j] == FlatIndices(objs)[..|b|][|a| + j];
  }

  /**
   * The flattening keeps every triangle's corners: an index of object k that
   * names one of its own vertices, read from the flat index list, names the
   * same vertex in the flat vertex list.
   */
  lemma IndicesStillResolve(objs: seq<PathTracingObject>, k: nat, j: nat)
    requires k < |objs| && j < |objs[k].indices| && 0 <= objs[k].indices[j] < |objs[k].vertices|
    ensures |FlatIndices(objs[..k])| + j < |FlatIndices(objs)|
    ensures var i := FlatIndices(objs)[|FlatIndices(objs[..k])| + j];
      0 <= i < |FlatVertices(objs)| && FlatVertices(objs)[i] == objs[k].vertices[objs[k].indices[j]]
  {
    var local := objs[k].indices[j];
    IndexAt(objs, k, j);
    VertexAt(objs, k, local);
    assert FlatIndices(objs)[|FlatIndices(objs[..k])| + j] == local + |FlatVertices(objs[..k])|;
  }

  /**
   * Mesh record k names object k's matrix, the position of its first index in
   * the flat index list, a third of its index count and material number
   * firstMaterial + k.
   */
  lemma MeshObjectAt(objs: seq<PathTracingObject>, k: nat, firstMaterial: int)
    requires k < |objs|
    ensures |MeshObjectsOf(objs, firstMaterial)| == |objs|
    ensures MeshObjectsOf(objs, firstMaterial)[k]
              == MeshObject(objs[k].localToWorld, |FlatIndices(objs[..k])|, |objs[k].indices| / 3, firstMaterial + k)
  {
    assert objs[..k + 1][..k] == objs[..k];
    MeshesPrefix(objs, k + 1, firstMaterial);
    assert MeshObjectsOf(objs, firstMaterial)[k] == MeshObjectsOf(objs, firstMaterial)[..k + 1][k];
  }

  /** Each object's indices, as referenced by their mesh record, name vertices of that object. */
  predicate ObjectIndicesValid(objs: seq<PathTracingObject>) {
    forall k, j | 0 <= k < |objs| && 0 <= j < |objs[k].indices| :: 0 <= objs[k].indices[j] < |objs[k].vertices|
  }

  /** The mesh records as the BVH builder takes them. */
  function BuilderMeshes(meshes: seq<MeshObject>): (r: seq<Primitives.MeshObject>)
    requires forall k | 0 <= k < |meshes| :: meshes[k].indexOffset >= 0 && meshes[k].triangleCount >= 0
    ensures |r| == |meshes|
  {
    seq(|meshes|, k requires 0 <= k < |meshes| =>
      Primitives.MeshObject(meshes[k].modelMatrix, meshes[k].indexOffset, meshes[k].triangleCount))
  }

  /** Object k's indices end within the flat index list. */
  lemma IndicesEnd(objs: seq<PathTracingObject>, k: nat)
    requires k < |objs|
    ensures |FlatIndices(objs[..k])| + |objs[k].indices| <= |FlatIndices(objs)|
  {
    assert objs[..k + 1][..k] == objs[..k];
    IndicesPrefix(objs, k + 1);
  }

  /** Mesh record m covers a run of the flat index list whose every entry names a flat vertex. */
  lemma MeshRecordValid(objs: seq<PathTracingObject>, m: nat, firstMaterial: int)
    requires ObjectIndicesValid(objs) && m < |objs|
    ensures |MeshObjectsOf(objs, firstMaterial)| == |objs|
    ensures var r := MeshObjectsOf(objs, firstMaterial)[m];
      && r.indexOffset >= 0 && r.triangleCount >= 0
      && r.indexOffset + 3 * r.triangleCount <= |FlatIndices(objs)|
      && forall i | r.indexOffset <= i < r.indexOffset + 3 * r.triangleCount :: 0 <= FlatIndices(objs)[i] < |FlatVertices(objs)|
  {
    MeshObjectAt(objs, m, firstMaterial);
    IndicesEnd(objs, m);
    var offset, n := |FlatIndices(objs[..m])|, |objs[m].indices|;
    assert 3 * (n / 3) <= n;
    forall i | offset <= i < offset + 3 * (n / 3) ensures 0 <= FlatIndices(objs)[i] < |FlatVertices(objs)| {
      IndicesStillResolve(objs, m, i - offset);
    }
  }

  /**
   * When every object's indices name its own vertices, the flattened scene is
   * valid input for the BVH builder: every triangle of every mesh record has
   * its three indices in the flat index list, each naming a flat vertex.
   */
  lemma FlatSceneValid(objs: seq<PathTracingObject>, firstMaterial: int)
    requires ObjectIndicesValid(objs)
    ensures var meshes := MeshObjectsOf(objs, firstMaterial);
      && |meshes| == |objs|
      && (forall k | 0 <= k < |meshes| :: meshes[k].indexOffset >= 0 && meshes[k].triangleCount >= 0)
      && Primitives.MeshesValid(BuilderMeshes(meshes), FlatVertices(objs), FlatIndices(objs))
  {
    var meshes := MeshObjectsOf(objs, firstMaterial);
    MeshesPrefix(objs, 0, firstMaterial);
    forall k | 0 <= k < |meshes| ensures meshes[k].indexOffset >= 0 && meshes[k].triangleCount >= 0 {
      MeshRecordValid(objs, k, firstMaterial);
    }
    var bm := BuilderMeshes(meshes);
    forall m | 0 <= m < |bm|
      ensures bm[m].indexOffset + 3 * bm[m].triangleCount <= |FlatIndices(objs)|
      ensures forall i | bm[m].indexOffset <= i < bm[m].indexOffset + 3 * bm[m].triangleCount ::
                0 <= FlatIndices(objs)[i] < |FlatVertices(objs)|
    {
      MeshRecordValid(objs, m, firstMaterial);
    }
  }

  // ---------------------------------------------------------------------
  // The shared state and the renderer

  /** PathTracer's static fields: the objects, the dirty flag and the flattened buffers. */
  class SceneRegistry {
    var meshObjectsNeedRebuilding: bool
    var ptObjects: seq<PathTracingObject>
    var meshObjects: seq<MeshObject>
    var vertices: seq<Vec3>
    var indices: seq<int>
    var materialBufferObjects: seq<MaterialBufferObject>

    /** The static initialisers: nothing registered, nothing to rebuild. */
    constructor()
      ensures !meshObjectsNeedRebuilding && ptObjects == [] && meshObjects == []
      ensures vertices == [] && indices == [] && materialBufferObjects == []
    {
      meshObjectsNeedRebuilding := false;
      ptObjects, meshObjects, vertices, indices, materialBufferObjects := [], [], [], [], [];
    }

    /** RegisterObject: appends the object and asks for a rebuild. */
    method RegisterObject(obj: PathTracingObject)
      modifies this`ptObjects, this`meshObjectsNeedRebuilding
      ensures ptObjects == old(ptObjects) + [obj] && meshObjectsNeedRebuilding
    {
      ptObjects := ptObjects + [obj];
      meshObjectsNeedRebuilding := true;
    }

    /** UnregisterObject: removes the object's first occurrence, if any, and asks for a rebuild. */
    method UnregisterObject(obj: PathTracingObject)
      modifies this`ptObjects, this`meshObjectsNeedRebuilding
      ensures ptObjects == RemoveFirst(old(ptObjects), obj) && meshObjectsNeedRebuilding
    {
      ptObjects := RemoveFirst(ptObjects, obj);
      meshObjectsNeedRebuilding := true;
    }

    /** SetMeshObjectsNeedRebuilding: asks for a rebuild. */
    method SetMeshObjectsNeedRebuilding()
      modifies this`meshObjectsNeedRebuilding
      ensures meshObjectsNeedRebuilding
    {
      meshObjectsNeedRebuilding := true;
    }
  }

  /** The camera's transform, as far as its change flag. */
  class Transform {
    var hasChanged: bool

    constructor(hasChanged: bool)
      ensures this.hasChanged == hasChanged
    {
      this.hasChanged := hasChanged;
    }
  }

  /**
   * The PathTracer component: the shared scene, the camera's transform, the
   * sample cap and the sample counter. The cap is a public field that may be
   * edited at any time, so the counter may be found above it.
   */
  class PathTracer {
    const scene: SceneRegistry
    const transform: Transform
    var maxSamples: uint32
    var currentSample: uint32

    constructor(scene: SceneRegistry, transform: Transform, maxSamples: uint32)
      ensures this.scene == scene && this.transform == transform && this.maxSamples == maxSamples
      ensures currentSample == 0
    {
      this.scene, this.transform, this.maxSamples := scene, transform, maxSamples;
      currentSample := 0;
    }

    /**
     * RebuildMeshObjectBuffers: nothing unless a rebuild was asked for. Then
     * it clears the flag, restarts the sample count and refills the mesh,
     * vertex and index lists from the registered objects, while the material
     * list, never cleared, grows by one record per object.
     */
    method RebuildMeshObjectBuffers()
      modifies scene, this`currentSample
      ensures !old(scene.meshObjectsNeedRebuilding) ==> unchanged(scene) && currentSample == old(currentSample)
      ensures old(scene.meshObjectsNeedRebuilding) ==>
                && !scene.meshObjectsNeedRebuilding && currentSample == 0
                && scene.ptObjects == old(scene.ptObjects)
                && scene.vertices == FlatVertices(scene.ptObjects)
                && scene.indices == FlatIndices(scene.ptObjects)
                && scene.materialBufferObjects == old(scene.materialBufferObjects) + MaterialsOf(scene.ptObjects)
                && scene.meshObjects == MeshObjectsOf(scene.ptObjects, |old(scene.materialBufferObjects)|)
    {
      if !scene.meshObjectsNeedRebuilding {
        return;
      }
      scene.meshObjectsNeedRebuilding := false;
      currentSample := 0;

      scene.meshObjects := [];
      scene.vertices := [];
      scene.indices := [];

      ghost var materials0 := scene.materialBufferObjects;
      var objs := scene.ptObjects;
      assert objs[..0] == [];
      for k := 0 to |objs|
        invariant scene.ptObjects == objs && !scene.meshObjectsNeedRebuilding && currentSample == 0
        invariant scene.vertices == FlatVertices(objs[..k])
        invariant scene.indices == FlatIndices(objs[..k])
        invariant scene.materialBufferObjects == materials0 + MaterialsOf(objs[..k])
        invariant scene.meshObjects == MeshObjectsOf(objs[..k], |materials0|)
      {
        ghost var v, ind, mats, meshes := scene.vertices, scene.indices, scene.materialBufferObjects, scene.meshObjects;
        AppendObjectBuffers(objs[k]);
        RebuildStep(objs, k, materials0, v, ind, mats, meshes);
      }
      assert objs[..|objs|] == objs;
    }

    /**
     * One pass of the rebuild loop: the object's vertices are appended, its
     * indices appended shifted past the vertices already there, and one
     * material record and one mesh record appended, the mesh record pointing
     * at the object's first index and at its material record.
     */
    method AppendObjectBuffers(ptObject: PathTracingObject)
      modifies scene`vertices, scene`indices, scene`materialBufferObjects, scene`meshObjects
      ensures scene.vertices == old(scene.vertices) + ptObject.vertices
      ensures scene.indices == old(scene.indices) + Shifted(ptObject.indices, |old(scene.vertices)|)
      ensures scene.materialBufferObjects == old(scene.materialBufferObjects) + [MaterialOf(ptObject)]
      ensures scene.meshObjects == old(scene.meshObjects)
                + [MeshObject(ptObject.localToWorld, |old(scene.indices)|, |ptObject.indices| / 3, |old(scene.materialBufferObjects)|)]
    {
      var firstVertex := |scene.vertices|;
      scene.vertices := scene.vertices + ptObject.vertices;

      var firstIndex := |scene.indices|;
      var indices := ptObject.indices;
      scene.indices := scene.indices + Shifted(indices, firstVertex);

      var matIndex := |scene.materialBufferObjects|;
      var materialObject := MaterialBufferObject(ptObject.materialType, ptObject.albedo, ptObject.specular, ptObject.emissive);
      scene.materialBufferObjects := scene.materialBufferObjects + [materialObject];

      var meshObject := MeshObject(ptObject.localToWorld, firstIndex, |indices| / 3, matIndex);
      scene.meshObjects := scene.meshObjects + [meshObject];
    }

    /** Update: a moved camera restarts the sample count and has its change flag cleared. */
    method Update()
      modifies this`currentSample, transform
      ensures old(transform.hasChanged) ==> currentSample == 0 && !transform.hasChanged
      ensures !old(transform.hasChanged) ==> currentSample == old(currentSample) && unchanged(transform)
    {
      if transform.hasChanged {
        currentSample := 0;
        transform.hasChanged := false;
      }
    }

    /**
     * Render: nothing once the counter has reached or passed the cap;
     * otherwise one more frame is dispatched and counted. The count stays
     * below 2^32 because it is below the cap before the increment.
     */
    method Render()
      modifies this`currentSample
      ensures currentSample == NextSample(old(currentSample), maxSamples)
      ensures old(currentSample) <= maxSamples ==> currentSample <= maxSamples
    {
      if currentSample >= maxSamples {
        return;
      }
      currentSample := currentSample + 1;
    }

    /** OnRenderImage: a rebuild if one was asked for, then a frame. */
    method OnRenderImage()
      modifies scene, this`currentSample
      ensures old(scene.meshObjectsNeedRebuilding) || old(currentSample) <= maxSamples ==> currentSample <= maxSamples
      ensures old(scene.meshObjectsNeedRebuilding) ==> currentSample == NextSample(0, maxSamples) && !scene.meshObjectsNeedRebuilding
      ensures !old(scene.meshObjectsNeedRebuilding) ==> currentSample == NextSample(old(currentSample), maxSamples) && unchanged(scene)
    {
      RebuildMeshObjectBuffers();
      Render();
    }
  }

  /** What one pass of the rebuild loop appends turns the buffers for objs[..k] into those for objs[..k + 1]. */
  lemma RebuildStep(objs: seq<PathTracingObject>, k: nat, materials0: seq<MaterialBufferObject>,
                    v: seq<Vec3>, ind: seq<int>, mats: seq<MaterialBufferObject>, meshes: seq<MeshObject>)
    requires k < |objs|
    requires v == FlatVertices(objs[..k]) && ind == FlatIndices(objs[..k])
    requires mats == materials0 + MaterialsOf(objs[..k]) && meshes == MeshObjectsOf(objs[..k], |materials0|)
    ensures v + objs[k].vertices == FlatVertices(objs[..k + 1])
    ensures ind + Shifted(objs[k].indices, |v|) == FlatIndices(objs[..k + 1])
    ensures mats + [MaterialOf(objs[k])] == materials0 + MaterialsOf(objs[..k + 1])
    ensures meshes + [MeshObject(objs[k].localToWorld, |ind|, |objs[k].indices| / 3, |mats|)]
              == MeshObjectsOf(objs[..k + 1], |materials0|)
  {
    FlatStep(objs, k, |materials0|);
    MaterialsLength(objs[..k]);
    var o := objs[k];
    assert mats + [MaterialOf(o)] == materials0 + (MaterialsOf(objs[..k]) + [MaterialOf(o)]);
    var x := MeshObject(o.localToWorld, |ind|, |o.indices| / 3, |mats|);
    var y := MeshObject(o.localToWorld, |FlatIndices(objs[..k])|, |o.indices| / 3, |materials0| + k);
    assert |mats| == |materials0| + k;
    assert x == y;
    assert meshes + [x] == MeshObjectsOf(objs[..k], |materials0|) + [y];
  }

  lemma {:induction false} MaterialsLength(objs: seq<PathTracingObject>)
    ensures |MaterialsOf(objs)| == |objs|
  {
    if objs != [] {
      MaterialsLength(objs[..|objs| - 1]);
    }
  }

  /** The counter after one Render call. */
  function NextSample(c: uint32, maxSamples: uint32): uint32 {
    if c >= maxSamples then c else c + 1
  }

  /** The counter after `n` Render calls. */
  function SampleAfter(c: uint32, maxSamples: uint32, n: nat): uint32
    decreases n
  {
    if n == 0 then c else SampleAfter(NextSample(c, maxSamples), maxSamples, n - 1)
  }

  /** From at most the cap, n frames advance the counter by n but never past the cap. */
  lemma {:induction false} SamplesSaturate(c: uint32, maxSamples: uint32, n: nat)
    requires c <= maxSamples
    ensures SampleAfter(c, maxSamples, n) as int == if c as int + n <= maxSamples as int then c as int + n else maxSamples as int
    decreases n
  {
    if n > 0 {
      SamplesSaturate(NextSample(c, maxSamples), maxSamples, n - 1);
    }
  }

  /** A counter found above the cap (the cap was lowered) stays where it is, however many frames follow. */
  lemma {:induction false} SamplesStayAboveCap(c: uint32, maxSamples: uint32, n: nat)
    requires c > maxSamples
    ensures SampleAfter(c, maxSamples, n) == c
    decreases n
  {
    if n > 0 {
      SamplesStayAboveCap(NextSample(c, maxSamples), maxSamples, n - 1);
    }
  }
}
