/**
 * BVHBuilder: extracts one record per triangle from the flattened scene,
 * then builds the hierarchy top-down over the record list, reordering
 * records in place, appending each leaf's triangle indices to the ordered
 * index list and registering every child node in the node list.
 */
module Builder {
  import opened Geometry
  import opened Primitives
  import opened Sah
  import opened Nodes
  import opened SplitDecision

  /** A reordering of records keeps every record's indices readable. */
  lemma IndicesValidReordered(a: seq<PrimitiveInfo>, b: seq<PrimitiveInfo>, indices: seq<int>)
    requires AllIndicesValid(a, indices) && multiset(a) == multiset(b)
    ensures AllIndicesValid(b, indices)
  {
    forall i | 0 <= i < |b| ensures IndicesValid(b[i], indices) {
      assert b[i] in multiset(a);
      var k :| 0 <= k < |a| && a[k] == b[i];
    }
  }

  /** A range of a list whose records have readable indices has readable indices. */
  lemma IndicesValidSlice(a: seq<PrimitiveInfo>, lo: int, hi: int, indices: seq<int>)
    requires AllIndicesValid(a, indices) && 0 <= lo <= hi <= |a|
    ensures AllIndicesValid(a[lo..hi], indices)
  {
    forall i | 0 <= i < hi - lo ensures IndicesValid(a[lo..hi][i], indices) {
      assert a[lo..hi][i] == a[lo + i];
    }
  }

  /** The multiset of a list is that of its prefix, a range and its suffix together. */
  lemma MultisetSplit3<T>(a: seq<T>, lo: int, hi: int)
    requires 0 <= lo <= hi <= |a|
    ensures multiset(a) == multiset(a[..lo]) + multiset(a[lo..hi]) + multiset(a[hi..])
  {
    assert a == a[..lo] + a[lo..hi] + a[hi..];
  }

  /** A list whose range start .. end is replaced by a reordering `t` of it keeps everything else and its multiset. */
  lemma SpliceRange<T>(a: seq<T>, b: seq<T>, start: int, end: int, t: seq<T>)
    requires 0 <= start <= end <= |a| && |t| == end - start && multiset(t) == multiset(a[start..end])
    requires b == a[..start] + t + a[end..]
    ensures |b| == |a| && b[start..end] == t && b[..start] == a[..start] && b[end..] == a[end..]
    ensures multiset(b) == multiset(a)
  {
    MultisetSplit3(a, start, end);
    assert b[..start] == a[..start];
    assert b[start..end] == t;
    assert b[end..] == a[end..];
  }

  /** The range start .. end of a list spliced from `t` is `t`. */
  lemma SplicedRange<T>(a: seq<T>, b: seq<T>, start: int, end: int, t: seq<T>)
    requires 0 <= start <= end <= |a| && |t| == end - start && b == a[..start] + t + a[end..]
    ensures b[start..end] == t
  {
  }

  /** Splitting a range that holds `t` at `mid`, after the second part has been left alone, gives the two parts of `t`. */
  lemma RangeParts<T>(a1: seq<T>, a2: seq<T>, start: int, mid: int, end: int, t: seq<T>)
    requires 0 <= start <= mid <= end <= |a1| && |a2| == |a1| && a1[start..end] == t && a2[mid..] == a1[mid..]
    ensures a1[start..mid] == t[..mid - start] && a2[mid..end] == t[mid - start..]
  {
    assert a2[mid..end] == a2[mid..][..end - mid];
    assert a1[mid..end] == a1[mid..][..end - mid];
  }

  /**
   * A range split as Decide chose, whose two parts were then built as
   * decided, is built as decided for its records on entry, and is left in
   * their built order once both parts are.
   */
  lemma SplitAsChosen(opts: BuilderOptions, before: seq<PrimitiveInfo>, after: seq<PrimitiveInfo>, s: seq<PrimitiveInfo>,
                      start: int, mid: int, end: int, node: BVHNode, p0: seq<PrimitiveInfo>, p1: seq<PrimitiveInfo>)
    requires 0 <= start < end <= |before| && s == before[start..end]
    requires opts.strategy == SAH ==> opts.sahBuckets >= 2
    requires var d := Decide(opts, s); d.Split? && after == before[..start] + d.order + before[end..] && mid == start + d.m
    requires p0 == after[start..mid] && p1 == after[mid..end] && SplitAsDecided(opts, node, p0, p1)
    ensures BuiltAsDecided(opts, node, s)
    ensures BuiltOrder(opts, s) == SplitOrder(opts, p0, p1)
  {
    var d := Decide(opts, s);
    SplicedRange(before, after, start, end, d.order);
    RangeParts(after, after, start, mid, end, d.order);
    SplitBuiltAsDecided(opts, s, node, p0, p1);
    SplitOrderOf(opts, s);
  }

  /**
   * Building the first part leaves the second alone and building the second
   * leaves the first alone, so the range ends up in the parts' built orders,
   * one after the other.
   */
  lemma ChildOrdersCompose(opts: BuilderOptions, a1: seq<PrimitiveInfo>, a2: seq<PrimitiveInfo>, a3: seq<PrimitiveInfo>,
                           start: int, mid: int, end: int, p0: seq<PrimitiveInfo>, p1: seq<PrimitiveInfo>)
    requires 0 <= start < mid < end <= |a1| && |a2| == |a1| && |a3| == |a1|
    requires opts.strategy == SAH ==> opts.sahBuckets >= 2
    requires p0 == a1[start..mid] && p1 == a1[mid..end]
    requires a2[start..mid] == BuiltOrder(opts, a1[start..mid]) && a2[mid..] == a1[mid..]
    requires a3[mid..end] == BuiltOrder(opts, a2[mid..end]) && a3[..mid] == a2[..mid]
    ensures a3[start..end] == SplitOrder(opts, p0, p1)
  {
    assert a2[mid..end] == a2[mid..][..end - mid];
    assert a1[mid..end] == a1[mid..][..end - mid];
    assert a3[start..mid] == a3[..mid][start..];
    assert a2[start..mid] == a2[..mid][start..];
    assert a3[start..end] == a3[start..mid] + a3[mid..end];
    SplitOrderParts(opts, p0, p1);
  }

  lemma AppendAssociates<T>(a: seq<T>, b: seq<T>, c: seq<T>)
    ensures a + b + c == a + (b + c)
  {
  }

  /**
   * The record list around an SAH partition of start .. end at `split`: only
   * the range changes, into a reordering with the same centroid box, split
   * validly at `mid`, and every record can still read its indices.
   */
  lemma SahPartitioned(opts: BuilderOptions, indices: seq<int>, before: seq<PrimitiveInfo>, after: seq<PrimitiveInfo>,
                       start: int, end: int, split: int, mid: int)
    requires 0 <= start && start + 4 < end <= |before| && AllIndicesValid(before, indices)
    requires opts.strategy == SAH && opts.sahBuckets >= 2 && 0 <= split < opts.sahBuckets - 1
    requires Spread(before[start..end])
    requires var s := before[start..end];
      && after == before[..start] + LeftPart(SahGrid(opts, s), split, s) + RightPart(SahGrid(opts, s), split, s) + before[end..]
      && mid == start + |LeftPart(SahGrid(opts, s), split, s)|
    ensures AllIndicesValid(after, indices) && |after| == |before|
    ensures after[..start] == before[..start] && after[end..] == before[end..]
    ensures multiset(after[start..end]) == multiset(before[start..end])
    ensures CentroidBoundsOf(after[start..end]) == CentroidBoundsOf(before[start..end])
    ensures start < mid < end && SplitChoice(opts, after[start..end], mid - start)
  {
    var s := before[start..end];
    var l, r := LeftPart(SahGrid(opts, s), split, s), RightPart(SahGrid(opts, s), split, s);
    SahSplitChoice(opts, s, split, mid - start);
    AppendAssociates(before[..start], l, r);
    SpliceRange(before, after, start, end, l + r);
    IndicesValidReordered(before, after, indices);
  }

  /**
   * What EvaluateSah computes, in terms of the records `s`: the costs of the
   * bucket splits when the node's area is not zero, the first cheapest of
   * them, and whether it beats a leaf. That is the SAH's bucket when it
   * splits, and a preference for a leaf when it does not.
   */
  lemma SahEvaluated(opts: BuilderOptions, s: seq<PrimitiveInfo>, costs: seq<real>, split: bool, k: int)
    requires |s| > 0 && opts.sahBuckets >= 2 && Spread(s)
    requires var g, area := SahGrid(opts, s), SurfaceArea(BoundsOf(s));
      && InGrid(g, s)
      && (area == 0.0 ==> !split)
      && (area != 0.0 ==>
            && costs == SplitCosts(FillBuckets(g, s), area) && k == FirstMinIndex(costs)
            && split == (costs[k] < (opts.sahPrimCost * |s|) as real))
    ensures split == (SahSplitBucket(opts, s) >= 0)
    ensures split ==> k == SahSplitBucket(opts, s)
    ensures !split ==> SahPrefersLeaf(opts, s)
    ensures split ==> 0 <= k < opts.sahBuckets - 1 && SurfaceArea(BoundsOf(s)) != 0.0
    ensures split ==>
      var buckets, area := FillBuckets(SahGrid(opts, s), s), SurfaceArea(BoundsOf(s));
      && SplitCost(buckets, k, area) < (opts.sahPrimCost * |s|) as real
      && (forall j | 0 <= j < opts.sahBuckets - 1 :: SplitCost(buckets, k, area) <= SplitCost(buckets, j, area))
      && (forall j | 0 <= j < k :: SplitCost(buckets, k, area) < SplitCost(buckets, j, area))
  {
    SahSplitBucketIsCheapest(opts, s);
  }

  /**
   * The record list after a decision for start .. end: a leaf leaves it as it
   * was, a split puts the decided order in place of the range. Either way
   * only the range changes, into a reordering of it, and the decision is one
   * the builder may take for the new order.
   */
  lemma Decided(opts: BuilderOptions, indices: seq<int>, before: seq<PrimitiveInfo>, after: seq<PrimitiveInfo>,
                start: int, end: int, leaf: bool, mid: int, dim: Axis)
    requires 0 <= start < end <= |before| && AllIndicesValid(before, indices)
    requires opts.strategy == SAH ==> opts.sahBuckets >= 2
    requires var d := Decide(opts, before[start..end]);
      && leaf == d.Leaf? && (leaf ==> after == before)
      && (d.Split? ==> after == before[..start] + d.order + before[end..] && mid == start + d.m)
    requires !leaf ==> dim == MaximumExtent(CentroidBoundsOf(before[start..end]))
    ensures AllIndicesValid(after, indices) && |after| == |before|
    ensures after[..start] == before[..start] && after[end..] == before[end..]
    ensures multiset(after[start..end]) == multiset(before[start..end])
    ensures leaf ==> LeafAllowed(opts, after[start..end])
    ensures !leaf ==> start < mid < end && SplitChoice(opts, after[start..end], mid - start)
    ensures !leaf ==> CentroidBoundsOf(after[start..end]) == CentroidBoundsOf(before[start..end]) && Spread(before[start..end])
    ensures !leaf ==> dim == MaximumExtent(CentroidBoundsOf(after[start..end])) && Extent(CentroidBoundsOf(after[start..end]), dim) > 0.0
  {
    var s := before[start..end];
    DecideValid(opts, s);
    var d := Decide(opts, s);
    if d.Split? {
      SplitPlaced(opts, indices, before, after, start, end, d.order, d.m, mid, dim);
    }
  }

  /**
   * The record list after a reordering `t` of start .. end is put in place
   * with a valid split at `m`: only the range changes, into a reordering with
   * the same centroid box, split strictly inside along its widest axis.
   */
  lemma SplitPlaced(opts: BuilderOptions, indices: seq<int>, before: seq<PrimitiveInfo>, after: seq<PrimitiveInfo>,
                    start: int, end: int, t: seq<PrimitiveInfo>, m: int, mid: int, dim: Axis)
    requires 0 <= start < end <= |before| && AllIndicesValid(before, indices)
    requires |t| == end - start && 0 < m < |t| && multiset(t) == multiset(before[start..end])
    requires Spread(before[start..end]) && CentroidBoundsOf(t) == CentroidBoundsOf(before[start..end])
    requires SplitChoice(opts, t, m)
    requires after == before[..start] + t + before[end..] && mid == start + m
    requires dim == MaximumExtent(CentroidBoundsOf(before[start..end]))
    ensures AllIndicesValid(after, indices) && |after| == |before|
    ensures after[..start] == before[..start] && after[end..] == before[end..]
    ensures multiset(after[start..end]) == multiset(before[start..end])
    ensures start < mid < end && SplitChoice(opts, after[start..end], mid - start)
    ensures CentroidBoundsOf(after[start..end]) == CentroidBoundsOf(before[start..end])
    ensures dim == MaximumExtent(CentroidBoundsOf(after[start..end])) && Extent(CentroidBoundsOf(after[start..end]), dim) > 0.0
  {
    SpliceRange(before, after, start, end, t);
    IndicesValidReordered(before, after, indices);
  }

  /**
   * The record list around the two recursive calls: the first child reorders
   * start .. mid, the second mid .. end. Together they reorder start .. end
   * half by half and leave everything else in place.
   */
  lemma ChildRangesCompose(a1: seq<PrimitiveInfo>, a2: seq<PrimitiveInfo>, a3: seq<PrimitiveInfo>, start: int, mid: int, end: int)
    requires 0 <= start < mid < end <= |a1| && |a2| == |a1| && |a3| == |a1|
    requires a2[..start] == a1[..start] && a2[mid..] == a1[mid..]
    requires a3[..mid] == a2[..mid] && a3[end..] == a2[end..]
    requires multiset(a2[start..mid]) == multiset(a1[start..mid])
    requires multiset(a3[mid..end]) == multiset(a2[mid..end])
    ensures a3[..start] == a1[..start] && a3[end..] == a1[end..]
    ensures a3[start..end] == a2[start..mid] + a3[mid..end]
    ensures multiset(a2[start..mid]) == multiset(a1[start..end][..mid - start])
    ensures multiset(a3[mid..end]) == multiset(a1[start..end][mid - start..])
  {
    assert a3[..start] == a3[..mid][..start];
    assert a2[..start] == a2[..mid][..start];
    assert a2[end..] == a2[mid..][end - mid..];
    assert a1[end..] == a1[mid..][end - mid..];
    assert a3[start..mid] == a3[..mid][start..];
    assert a2[start..mid] == a2[..mid][start..];
    assert a1[start..end][..mid - start] == a1[start..mid];
    assert a1[start..end][mid - start..] == a1[mid..end];
    assert a2[mid..end] == a2[mid..][..end - mid];
    assert a1[mid..end] == a1[mid..][..end - mid];
    assert a3[start..end] == a3[start..mid] + a3[mid..end];
  }

  /** The index lists the two children append add up to those of the whole range. */
  lemma ChildIndicesAppend(indices: seq<int>, o1: seq<int>, o2: seq<int>, o3: seq<int>, l: seq<PrimitiveInfo>, r: seq<PrimitiveInfo>)
    requires AllIndicesValid(l, indices) && AllIndicesValid(r, indices)
    requires o2 == o1 + TriangleIndices(indices, l) && o3 == o2 + TriangleIndices(indices, r)
    ensures AllIndicesValid(l + r, indices) && o3 == o1 + TriangleIndices(indices, l + r)
  {
    TriangleIndicesAppend(indices, l, r);
    AppendAssociates(o1, TriangleIndices(indices, l), TriangleIndices(indices, r));
  }

  /**
   * Registering the two children after everything registered while building
   * them: the node list keeps its old prefix, grows by the subtree's size
   * minus its root, and the new inner node names both children.
   */
  lemma ChildrenRegistered(n1: seq<BVHNode>, n2: seq<BVHNode>, n3: seq<BVHNode>, node: BVHNode, c0: BVHNode, c1: BVHNode)
    requires |n2| == |n1| + NodeCount(c0) - 1 && n2[..|n1|] == n1
    requires |n3| == |n2| + NodeCount(c1) - 1 && n3[..|n2|] == n2
    requires RegisteredIn(n2, c0) && RegisteredIn(n3, c1)
    requires node.children == Pair(c0, c1) && node.c0Index == |n3| && node.c1Index == |n3| + 1
    ensures |n3 + [c0] + [c1]| == |n1| + NodeCount(node) - 1 && (n3 + [c0] + [c1])[..|n1|] == n1
    ensures RegisteredIn(n3 + [c0] + [c1], node)
  {
    var all := n3 + [c0] + [c1];
    assert all[..|n3|] == n3;
    assert all[..|n2|] == n3[..|n2|] == n2;
    assert all[..|n1|] == n2[..|n1|] == n1;
    RegisteredInPrefix(n2, all, c0);
    RegisteredInPrefix(n3, all, c1);
  }

  /**
   * Registering the two children after their subtrees and the parent after
   * them keeps children before their parent: the nodes registered since
   * `n1` are the first subtree's, the second subtree's, then the two children.
   */
  lemma ChildrenRegisteredBefore(n1: seq<BVHNode>, n2: seq<BVHNode>, n3: seq<BVHNode>, node: BVHNode, c0: BVHNode, c1: BVHNode)
    requires |n1| <= |n2| <= |n3| && n2[..|n1|] == n1 && n3[..|n2|] == n2
    requires ChildrenBefore(n2[|n1|..] + [c0], |n1|) && ChildrenBefore(n3[|n2|..] + [c1], |n2|)
    requires node.c0Index == |n3| && node.c1Index == |n3| + 1
    ensures ChildrenBefore((n3 + [c0] + [c1])[|n1|..] + [node], |n1|)
  {
    var l0, l1 := n2[|n1|..], n3[|n2|..];
    assert n3[|n1|..] == l0 + l1 by {
      assert n3[|n1|..|n2|] == n2[|n1|..];
    }
    assert (n3 + [c0] + [c1])[|n1|..] == l0 + l1 + [c0, c1];
    ChildrenBeforeJoin(l0, c0, l1, c1, node, |n1|);
  }

  /**
   * What building the two children establishes about the inner node over
   * start .. end: the record list `a1` becomes `a3`, reordered only inside
   * the range; the ordered index list `o1` grows by the range's triangle
   * indices in the new order; the node list `n1` grows to `n3` while the
   * children are built and then takes the two children; and the inner node
   * is well built over the reordered range and names its children there.
   */
  lemma ChildrenBuilt(opts: BuilderOptions, indices: seq<int>, s: seq<PrimitiveInfo>,
                      a1: seq<PrimitiveInfo>, a2: seq<PrimitiveInfo>, a3: seq<PrimitiveInfo>,
                      o1: seq<int>, o2: seq<int>, o3: seq<int>,
                      n1: seq<BVHNode>, n2: seq<BVHNode>, n3: seq<BVHNode>,
                      start: int, mid: int, end: int, dim: Axis, c0: BVHNode, c1: BVHNode, node: BVHNode)
    requires 0 <= start < mid < end <= |a1| && |a2| == |a1| && |a3| == |a1|
    requires |s| == end - start && multiset(a1[start..end]) == multiset(s)
    requires CentroidBoundsOf(a1[start..end]) == CentroidBoundsOf(s)
    requires dim == MaximumExtent(CentroidBoundsOf(s)) && Extent(CentroidBoundsOf(s), dim) > 0.0
    requires SplitChoice(opts, a1[start..end], mid - start)
    // the first child
    requires a2[..start] == a1[..start] && a2[mid..] == a1[mid..]
    requires multiset(a2[start..mid]) == multiset(a1[start..mid]) && AllIndicesValid(a2[start..mid], indices)
    requires o2 == o1 + TriangleIndices(indices, a2[start..mid])
    requires WellBuilt(opts, c0, a2[start..mid], |o1|)
    requires |n2| == |n1| + NodeCount(c0) - 1 && n2[..|n1|] == n1 && RegisteredIn(n2, c0)
    // the second child
    requires a3[..mid] == a2[..mid] && a3[end..] == a2[end..]
    requires multiset(a3[mid..end]) == multiset(a2[mid..end]) && AllIndicesValid(a3[mid..end], indices)
    requires o3 == o2 + TriangleIndices(indices, a3[mid..end])
    requires WellBuilt(opts, c1, a3[mid..end], |o2|)
    requires |n3| == |n2| + NodeCount(c1) - 1 && n3[..|n2|] == n2 && RegisteredIn(n3, c1)
    // the inner node
    requires node == InitInnerNode(NewNode, dim, c0, c1).(c0Index := |n3|, c1Index := |n3| + 1)
    ensures a3[..start] == a1[..start] && a3[end..] == a1[end..]
    ensures multiset(a3[start..end]) == multiset(s) && AllIndicesValid(a3[start..end], indices)
    ensures o3 == o1 + TriangleIndices(indices, a3[start..end])
    ensures WellBuilt(opts, node, a3[start..end], |o1|)
    ensures |n3 + [c0] + [c1]| == |n1| + NodeCount(node) - 1 && (n3 + [c0] + [c1])[..|n1|] == n1
    ensures RegisteredIn(n3 + [c0] + [c1], node)
  {
    var p, f := a1[start..end], a3[start..end];
    var l, r := a2[start..mid], a3[mid..end];
    ChildRangesCompose(a1, a2, a3, start, mid, end);
    SplitChoiceReordered(opts, p, l, r);
    ChildIndicesAppend(indices, o1, o2, o3, l, r);
    InnerWellBuilt(opts, node, c0, c1, l, r, |o1|, |o2|);
    ChildrenRegistered(n1, n2, n3, node, c0, c1);
  }

  class BVHBuilder {
    const meshObjects: seq<MeshObject>
    /** The vertex positions (the only vertex attribute the builder reads). */
    const vertices: seq<Vec3>
    const indices: seq<int>
    const options: BuilderOptions
    /** Number of triangles the build covers: the index count divided by three. */
    const nPrims: int

    var primitiveInfos: seq<PrimitiveInfo>
    var nodes: seq<BVHNode>
    var orderedIndices: seq<int>
    var rootNode: BVHNode
    var rootIndex: int

    /** Every record names a triangle whose three indices can be read. */
    ghost predicate Valid()
      reads this
    {
      AllIndicesValid(primitiveInfos, indices)
    }

    /** The constructor keeps its inputs and extracts the triangle records. */
    constructor(meshObjects: seq<MeshObject>, vertices: seq<Vec3>, indices: seq<int>, options: BuilderOptions)
      requires MeshesValid(meshObjects, vertices, indices)
      ensures this.meshObjects == meshObjects && this.vertices == vertices && this.indices == indices
      ensures this.options == options && nPrims == |indices| / 3
      ensures primitiveInfos == AllPrimitives(meshObjects, vertices, indices, |meshObjects|)
      ensures nodes == [] && orderedIndices == []
      ensures Valid()
    {
      this.options := options;
      this.meshObjects := meshObjects;
      this.vertices := vertices;
      this.indices := indices;
      nPrims := |indices| / 3;
      primitiveInfos := [];
      nodes := [];
      orderedIndices := [];
      rootNode := NewNode;
      rootIndex := 0;
      new;
      CreatePrimitiveInfos();
      AllPrimitivesIndicesValid(meshObjects, vertices, indices, |meshObjects|);
    }

    /**
     * Appends one record per triangle, mesh by mesh: the triangle's corners
     * taken through the mesh's model matrix, their box, the box's centre, the
     * position of the triangle's first index and the mesh's number.
     */
    method CreatePrimitiveInfos()
      requires MeshesValid(meshObjects, vertices, indices)
      modifies this`primitiveInfos
      ensures primitiveInfos == old(primitiveInfos) + AllPrimitives(meshObjects, vertices, indices, |meshObjects|)
    {
      for meshID := 0 to |meshObjects|
        invariant primitiveInfos == old(primitiveInfos) + AllPrimitives(meshObjects, vertices, indices, meshID)
      {
        AppendMeshPrimitives(meshID);
      }
    }

    /** The inner loop of CreatePrimitiveInfos: the records of mesh `meshID`'s triangles, in order. */
    method AppendMeshPrimitives(meshID: nat)
      requires MeshesValid(meshObjects, vertices, indices) && meshID < |meshObjects|
      modifies this`primitiveInfos
      ensures primitiveInfos == old(primitiveInfos) + MeshPrimitives(meshObjects, vertices, indices, meshID, meshObjects[meshID].triangleCount)
    {
      var mesh := meshObjects[meshID];
      for i := 0 to mesh.triangleCount
        invariant primitiveInfos == old(primitiveInfos) + MeshPrimitives(meshObjects, vertices, indices, meshID, i)
      {
        var k := mesh.indexOffset + i * 3;
        assert 0 <= indices[k + 0] < |vertices| && 0 <= indices[k + 1] < |vertices| && 0 <= indices[k + 2] < |vertices|;
        var v1 := TransformPoint(mesh.modelMatrix, vertices[indices[k + 0]]);
        var v2 := TransformPoint(mesh.modelMatrix, vertices[indices[k + 1]]);
        var v3 := TransformPoint(mesh.modelMatrix, vertices[indices[k + 2]]);
        var bounds := Box(Min3(v1, Min3(v2, v3)), Max3(v1, Max3(v2, v3)));
        var info := PrimitiveInfo(k, meshID, bounds, Add(bounds.minimum, Half(Sub(bounds.maximum, bounds.minimum))));
        assert MeshPrimitives(meshObjects, vertices, indices, meshID, i + 1)
            == MeshPrimitives(meshObjects, vertices, indices, meshID, i) + [info] by {
          assert info == MakePrimitive(meshObjects, vertices, indices, meshID, i);
        }
        primitiveInfos := primitiveInfos + [info];
      }
    }

    /** RegisterNode: appends the node and returns its position. */
    method RegisterNode(node: BVHNode) returns (index: int)
      modifies this`nodes
      ensures nodes == old(nodes) + [node] && index == |old(nodes)|
      ensures primitiveInfos == old(primitiveInfos) && orderedIndices == old(orderedIndices)
      ensures nodes[index] == node
    {
      index := |nodes|;
      nodes := nodes + [node];
    }

    /** The union of the boxes of the records start .. end, seeded with the first record's box. */
    method RangeBounds(start: int, end: int) returns (bounds: Box)
      requires 0 <= start < end <= |primitiveInfos|
      ensures bounds == BoundsOf(primitiveInfos[start..end])
    {
      bounds := primitiveInfos[start].bounds;
      for i := start to end
        invariant i == start ==> bounds == primitiveInfos[start].bounds
        invariant start < i ==> bounds == BoundsOf(primitiveInfos[start..i])
      {
        if i == start {
          UnionLaws(bounds, bounds);
        } else {
          assert primitiveInfos[start..i + 1][..i - start] == primitiveInfos[start..i];
        }
        bounds := Union(bounds, primitiveInfos[i].bounds);
      }
    }

    /** The box of the centroids of the records start .. end, seeded with the first centroid. */
    method RangeCentroidBounds(start: int, end: int) returns (centroidBounds: Box)
      requires 0 <= start < end <= |primitiveInfos|
      ensures centroidBounds == CentroidBoundsOf(primitiveInfos[start..end])
    {
      centroidBounds := Box(primitiveInfos[start].center, primitiveInfos[start].center);
      for i := start to end
        invariant i == start ==> centroidBounds == Box(primitiveInfos[start].center, primitiveInfos[start].center)
        invariant start < i ==> centroidBounds == CentroidBoundsOf(primitiveInfos[start..i])
      {
        if i > start {
          assert primitiveInfos[start..i + 1][..i - start] == primitiveInfos[start..i];
        }
        centroidBounds := UnionPoint(centroidBounds, primitiveInfos[i].center);
      }
    }

    /** Appends the three indices of every record of start .. end, record by record. */
    method AppendTriangleIndices(start: int, end: int)
      requires 0 <= start <= end <= |primitiveInfos| && Valid()
      modifies this`orderedIndices
      ensures AllIndicesValid(primitiveInfos[start..end], indices)
      ensures orderedIndices == old(orderedIndices) + TriangleIndices(indices, primitiveInfos[start..end])
    {
      IndicesValidSlice(primitiveInfos, start, end, indices);
      for i := start to end
        invariant AllIndicesValid(primitiveInfos[start..i], indices)
        invariant orderedIndices == old(orderedIndices) + TriangleIndices(indices, primitiveInfos[start..i])
      {
        IndicesValidSlice(primitiveInfos, start, i + 1, indices);
        assert primitiveInfos[start..i + 1][..i - start] == primitiveInfos[start..i];
        var primNum := primitiveInfos[i].primIndex;
        orderedIndices := orderedIndices + [indices[primNum]];
        orderedIndices := orderedIndices + [indices[primNum + 1]];
        orderedIndices := orderedIndices + [indices[primNum + 2]];
      }
    }

    /** A leaf over start .. end: its triangles' indices are appended and the node points at them. */
    method MakeLeaf(start: int, end: int, bounds: Box) returns (node: BVHNode)
      requires 0 <= start < end <= |primitiveInfos| && Valid()
      requires bounds == BoundsOf(primitiveInfos[start..end]) && LeafAllowed(options, primitiveInfos[start..end])
      modifies this`orderedIndices
      ensures AllIndicesValid(primitiveInfos[start..end], indices)
      ensures orderedIndices == old(orderedIndices) + TriangleIndices(indices, primitiveInfos[start..end])
      ensures node.children == NoChildren && node.primCount == end - start && node.bounds == bounds
      ensures WellBuilt(options, node, primitiveInfos[start..end], |old(orderedIndices)|)
    {
      var firstPrimsOffset := |orderedIndices|;
      AppendTriangleIndices(start, end);
      node := InitLeafNode(NewNode, firstPrimsOffset, end - start, bounds, primitiveInfos[start].meshIndex);
    }

    /**
     * Drops the records of start .. end into the grid's buckets, front to back,
     * and notes whether they all belong to the first record's mesh.
     */
    method FillBucketArray(start: int, end: int, g: Grid) returns (buckets: array<BucketInfo>, isSameMesh: bool)
      requires 0 <= start < end <= |primitiveInfos| && g.nBuckets >= 1 && InGrid(g, primitiveInfos[start..end])
      ensures fresh(buckets) && buckets[..] == FillBuckets(g, primitiveInfos[start..end])
      ensures isSameMesh == AllSameMesh(primitiveInfos[start..end])
    {
      ghost var s := primitiveInfos[start..end];
      buckets := new BucketInfo[g.nBuckets](_ => EmptyBucket);
      assert s[..0] == [];
      isSameMesh := true;
      var firstMesh := primitiveInfos[start].meshIndex;
      assert firstMesh == s[0].meshIndex;
      for i := start to end
        invariant InGrid(g, s[..i - start])
        invariant buckets[..] == FillBuckets(g, s[..i - start])
        invariant isSameMesh == AllSameMesh(s[..i - start])
      {
        var p := primitiveInfos[i];
        FillRangeStep(g, s, i - start);
        assert p == s[i - start];
        isSameMesh := isSameMesh && p.meshIndex == firstMesh;
        DropIntoBucket(buckets, BucketIndex(g, p.center), p);
      }
      assert s[..end - start] == s;
    }

    /** One record dropped into bucket b: the first sets the bucket's bounds to its own, later ones grow them by their centroid. */
    method DropIntoBucket(buckets: array<BucketInfo>, b: int, p: PrimitiveInfo)
      requires 0 <= b < buckets.Length
      modifies buckets
      ensures buckets[..] == old(buckets[..])[b := AddToBucket(old(buckets[b]), p)]
    {
      var bucket := buckets[b];
      if bucket.count == 0 {
        bucket := bucket.(bounds := p.bounds);
      } else {
        bucket := bucket.(bounds := UnionPoint(bucket.bounds, p.center));
      }
      bucket := bucket.(count := bucket.count + 1);
      buckets[b] := bucket;
    }

    /**
     * The SAH evaluation of a range of more than one record: drop the records
     * into buckets, cost every candidate split, pick the cheapest, and compare
     * it with the cost of a leaf. Changes nothing.
     */
    method EvaluateSah(start: int, end: int, bounds: Box, centroidBounds: Box, dim: Axis)
      returns (split: bool, minCostSplitBucket: int, isSameMesh: bool)
      requires 0 <= start < end <= |primitiveInfos| && options.sahBuckets >= 2
      requires bounds == BoundsOf(primitiveInfos[start..end])
      requires centroidBounds == CentroidBoundsOf(primitiveInfos[start..end]) && dim == MaximumExtent(centroidBounds)
      requires Extent(centroidBounds, dim) > 0.0
      ensures InGrid(SahGrid(options, primitiveInfos[start..end]), primitiveInfos[start..end])
      ensures isSameMesh == AllSameMesh(primitiveInfos[start..end])
      ensures split == (SahSplitBucket(options, primitiveInfos[start..end]) >= 0)
      ensures split ==> minCostSplitBucket == SahSplitBucket(options, primitiveInfos[start..end])
      ensures !split ==> SahPrefersLeaf(options, primitiveInfos[start..end])
      ensures split ==> 0 <= minCostSplitBucket < options.sahBuckets - 1 && SurfaceArea(bounds) != 0.0
      ensures split ==>
        var costs := FillBuckets(SahGrid(options, primitiveInfos[start..end]), primitiveInfos[start..end]);
        && SplitCost(costs, minCostSplitBucket, SurfaceArea(bounds)) < (options.sahPrimCost * (end - start)) as real
        && (forall j | 0 <= j < options.sahBuckets - 1 ::
              SplitCost(costs, minCostSplitBucket, SurfaceArea(bounds)) <= SplitCost(costs, j, SurfaceArea(bounds)))
        && (forall j | 0 <= j < minCostSplitBucket ::
              SplitCost(costs, minCostSplitBucket, SurfaceArea(bounds)) < SplitCost(costs, j, SurfaceArea(bounds)))
    {
      ghost var s := primitiveInfos[start..end];
      var g := Grid(options.sahBuckets, centroidBounds, dim);
      assert g == SahGrid(options, s);
      CentroidBoundsOfIsLeast(s, centroidBounds);
      CentroidsInGrid(g, s);
      var buckets;
      buckets, isSameMesh := FillBucketArray(start, end, g);

      var area := SurfaceArea(bounds);
      var leafCost := (options.sahPrimCost * (end - start)) as real;
      split, minCostSplitBucket := false, 0;
      ghost var costs: seq<real> := [];
      if area != 0.0 {
        var cost := EvaluateCosts(buckets, area);
        var minCost;
        minCost, minCostSplitBucket := MinCostSplitBucket(cost);
        split := minCost < leafCost;
        costs := cost[..];
        assert costs == SplitCosts(FillBuckets(g, s), area);
      }
      SahEvaluated(options, s, costs, split, minCostSplitBucket);
    }

    /**
     * PartitionPrimInfoByBucket: the records of start .. end whose centroid
     * falls in a bucket up to `minCostSplitBucket` move to the front, the rest
     * after them, each group in its old order; returns where the second group starts.
     */
    method PartitionPrimInfoByBucket(start: int, end: int, centroidBounds: Box, minCostSplitBucket: int, dim: Axis)
      returns (mid: int)
      requires 0 <= start <= end <= |primitiveInfos|
      modifies this`primitiveInfos
      ensures var g := Grid(options.sahBuckets, centroidBounds, dim);
        var s := old(primitiveInfos[start..end]);
        && primitiveInfos == old(primitiveInfos[..start]) + LeftPart(g, minCostSplitBucket, s)
                             + RightPart(g, minCostSplitBucket, s) + old(primitiveInfos[end..])
        && mid == start + |LeftPart(g, minCostSplitBucket, s)|
    {
      var g := Grid(options.sahBuckets, centroidBounds, dim);
      var left, right := [], [];
      for i := start to end
        invariant primitiveInfos == old(primitiveInfos)
        invariant left == LeftPart(g, minCostSplitBucket, primitiveInfos[start..i])
        invariant right == RightPart(g, minCostSplitBucket, primitiveInfos[start..i])
      {
        assert primitiveInfos[start..i + 1] == primitiveInfos[start..i] + [primitiveInfos[i]];
        PartitionStep(g, minCostSplitBucket, primitiveInfos[start..i], primitiveInfos[i]);
        var b := BucketIndex(g, primitiveInfos[i].center);
        if b <= minCostSplitBucket {
          left := left + [primitiveInfos[i]];
        } else {
          right := right + [primitiveInfos[i]];
        }
      }
      var leftCount := |left|;
      left := left + right;
      primitiveInfos := primitiveInfos[..start] + left + primitiveInfos[end..];
      mid := leftCount + start;
    }

    /**
     * RecursiveBuild over the records start .. end. The records outside the
     * range keep their places and those inside are reordered; the range's
     * triangle indices, in the new order, are appended to the ordered index
     * list; the nodes already registered keep their places; and the returned
     * node is a well-built subtree over the reordered range, every inner node
     * of which names its children by their positions in the node list.
     */
    method RecursiveBuild(start: int, end: int) returns (node: BVHNode)
      requires 0 <= start < end <= |primitiveInfos| && Valid()
      requires options.strategy == SAH ==> options.sahBuckets >= 2
      modifies this`primitiveInfos, this`orderedIndices, this`nodes
      ensures Valid() && |primitiveInfos| == old(|primitiveInfos|)
      ensures primitiveInfos[..start] == old(primitiveInfos[..start]) && primitiveInfos[end..] == old(primitiveInfos[end..])
      ensures multiset(primitiveInfos[start..end]) == multiset(old(primitiveInfos[start..end]))
      ensures AllIndicesValid(primitiveInfos[start..end], indices)
      ensures orderedIndices == old(orderedIndices) + TriangleIndices(indices, primitiveInfos[start..end])
      ensures WellBuilt(options, node, primitiveInfos[start..end], |old(orderedIndices)|)
      ensures |nodes| == |old(nodes)| + NodeCount(node) - 1 && nodes[..|old(nodes)|] == old(nodes)
      ensures RegisteredIn(nodes, node)
      ensures ChildrenBefore(nodes[|old(nodes)|..] + [node], |old(nodes)|)
      ensures node.children.Pair? <==> Decide(options, old(primitiveInfos[start..end])).Split?
      ensures BuiltAsDecided(options, node, old(primitiveInfos[start..end]))
      ensures primitiveInfos[start..end] == BuiltOrder(options, old(primitiveInfos[start..end]))
      ensures options.strategy == EqualCount ==> primitiveInfos == old(primitiveInfos)
      decreases end - start, 1
    {
      var bounds := RangeBounds(start, end);
      ghost var s := primitiveInfos[start..end];
      var leaf, mid, dim := ChooseSplit(start, end, bounds);
      assert nodes == old(nodes) && orderedIndices == old(orderedIndices);
      if leaf {
        node := MakeLeaf(start, end, bounds);
        assert nodes[|old(nodes)|..] == [] && NodeCount(node) == 1;
        LeafAsDecided(options, s, node);
        LeafOrder(options, s);
      } else {
        ghost var p := primitiveInfos;
        ghost var p0, p1 := p[start..mid], p[mid..end];
        node := BuildChildren(start, mid, end, dim, s, p0, p1);
        SplitAsChosen(options, old(primitiveInfos), p, s, start, mid, end, node, p0, p1);
      }
    }

    /**
     * The choice between a split and a leaf for the range start .. end: a
     * leaf for one record and for centroids that do not spread along the
     * axis of largest centroid extent. Otherwise the middle for equal counts
     * and for the SAH on at most four records; and for more, the SAH's
     * cheapest bucket split, partitioning the range, when it beats a leaf, a
     * leaf when it does not and the records share a mesh, and the middle
     * when they do not.
     */
    method ChooseSplit(start: int, end: int, bounds: Box) returns (leaf: bool, mid: int, dim: Axis)
      requires 0 <= start < end <= |primitiveInfos| && Valid()
      requires options.strategy == SAH ==> options.sahBuckets >= 2
      requires bounds == BoundsOf(primitiveInfos[start..end])
      modifies this`primitiveInfos
      ensures Valid() && |primitiveInfos| == old(|primitiveInfos|)
      ensures primitiveInfos[..start] == old(primitiveInfos[..start]) && primitiveInfos[end..] == old(primitiveInfos[end..])
      ensures multiset(primitiveInfos[start..end]) == multiset(old(primitiveInfos[start..end]))
      ensures leaf ==> primitiveInfos == old(primitiveInfos) && LeafAllowed(options, primitiveInfos[start..end])
      ensures !leaf ==> start < mid < end && SplitChoice(options, primitiveInfos[start..end], mid - start)
      ensures !leaf ==> CentroidBoundsOf(primitiveInfos[start..end]) == CentroidBoundsOf(old(primitiveInfos[start..end]))
      ensures !leaf ==> dim == MaximumExtent(CentroidBoundsOf(primitiveInfos[start..end]))
      ensures !leaf ==> Extent(CentroidBoundsOf(primitiveInfos[start..end]), dim) > 0.0
      ensures var d := Decide(options, old(primitiveInfos[start..end]));
        && leaf == d.Leaf?
        && (d.Split? ==> primitiveInfos == old(primitiveInfos[..start]) + d.order + old(primitiveInfos[end..]) && mid == start + d.m)
      ensures !leaf ==> dim == MaximumExtent(CentroidBoundsOf(old(primitiveInfos[start..end])))
      ensures !leaf && (options.strategy == EqualCount || end - start <= 4) ==>
        primitiveInfos == old(primitiveInfos) && mid == (start + end) / 2
    {
      ghost var before := primitiveInfos;
      ghost var s := primitiveInfos[start..end];
      assert primitiveInfos == primitiveInfos[..start] + s + primitiveInfos[end..];
      leaf, mid, dim := true, start, 0;
      if end - start == 1 {
        DecideKeepsTogether(options, s);
      } else {
        var centroidBounds := RangeCentroidBounds(start, end);
        dim := MaximumExtent(centroidBounds);
        if Component(centroidBounds.maximum, dim) == Component(centroidBounds.minimum, dim) {
          DecideKeepsTogether(options, s);
        } else {
          leaf, mid := SpreadChooseSplit(start, end, bounds, centroidBounds, dim);
        }
      }
      Decided(options, indices, before, primitiveInfos, start, end, leaf, mid, dim);
    }

    /**
     * The choice for centroids that spread: the middle for equal counts and
     * for the SAH on at most four records, the SAH's choice for more.
     */
    method SpreadChooseSplit(start: int, end: int, bounds: Box, centroidBounds: Box, dim: Axis) returns (leaf: bool, mid: int)
      requires 0 <= start && start + 1 < end <= |primitiveInfos| && Valid()
      requires options.strategy == SAH ==> options.sahBuckets >= 2
      requires bounds == BoundsOf(primitiveInfos[start..end])
      requires centroidBounds == CentroidBoundsOf(primitiveInfos[start..end]) && dim == MaximumExtent(centroidBounds)
      requires Extent(centroidBounds, dim) > 0.0
      modifies this`primitiveInfos
      ensures var d := Decide(options, old(primitiveInfos[start..end]));
        && leaf == d.Leaf?
        && (leaf ==> primitiveInfos == old(primitiveInfos))
        && (d.Split? ==> primitiveInfos == old(primitiveInfos[..start]) + d.order + old(primitiveInfos[end..]) && mid == start + d.m)
      ensures !leaf && (options.strategy == EqualCount || end - start <= 4) ==>
        primitiveInfos == old(primitiveInfos) && mid == (start + end) / 2
    {
      ghost var s := primitiveInfos[start..end];
      assert primitiveInfos == primitiveInfos[..start] + s + primitiveInfos[end..];
      leaf, mid := false, (start + end) / 2;
      match options.strategy {
        case EqualCount =>
          mid := (start + end) / 2;
          DecideMiddle(options, s);
        case SAH =>
          if end - start <= 4 {
            mid := (start + end) / 2;
            DecideMiddle(options, s);
          } else {
            mid, leaf := SahChooseSplit(start, end, bounds, centroidBounds, dim);
          }
      }
    }

    /** The SAH branch of ChooseSplit, for more than four records. */
    method SahChooseSplit(start: int, end: int, bounds: Box, centroidBounds: Box, dim: Axis) returns (mid: int, leaf: bool)
      requires 0 <= start && start + 4 < end <= |primitiveInfos| && Valid()
      requires options.strategy == SAH && options.sahBuckets >= 2
      requires bounds == BoundsOf(primitiveInfos[start..end])
      requires centroidBounds == CentroidBoundsOf(primitiveInfos[start..end]) && dim == MaximumExtent(centroidBounds)
      requires Extent(centroidBounds, dim) > 0.0
      modifies this`primitiveInfos
      ensures Valid() && |primitiveInfos| == old(|primitiveInfos|)
      ensures primitiveInfos[..start] == old(primitiveInfos[..start]) && primitiveInfos[end..] == old(primitiveInfos[end..])
      ensures multiset(primitiveInfos[start..end]) == multiset(old(primitiveInfos[start..end]))
      ensures CentroidBoundsOf(primitiveInfos[start..end]) == centroidBounds
      ensures leaf ==> primitiveInfos == old(primitiveInfos) && LeafAllowed(options, primitiveInfos[start..end])
      ensures !leaf ==> start < mid < end && SplitChoice(options, primitiveInfos[start..end], mid - start)
      ensures var d := Decide(options, old(primitiveInfos[start..end]));
        && leaf == d.Leaf?
        && (d.Split? ==> primitiveInfos == old(primitiveInfos[..start]) + d.order + old(primitiveInfos[end..]) && mid == start + d.m)
      ensures !leaf && SahSplitBucket(options, old(primitiveInfos[start..end])) == -1 ==>
        primitiveInfos == old(primitiveInfos) && mid == (start + end) / 2
    {
      ghost var before := primitiveInfos;
      ghost var s := primitiveInfos[start..end];
      assert before == before[..start] + s + before[end..];
      DecideBySah(options, s);
      var split, minCostSplitBucket, isSameMesh := EvaluateSah(start, end, bounds, centroidBounds, dim);
      mid, leaf := (start + end) / 2, false;
      if split {
        mid := SahPartition(start, end, centroidBounds, dim, minCostSplitBucket);
        ghost var g := SahGrid(options, s);
        AppendAssociates(before[..start], LeftPart(g, minCostSplitBucket, s), RightPart(g, minCostSplitBucket, s));
      } else if isSameMesh {
        leaf := true;
      } else {
        mid := (start + end) / 2;
      }
      Decided(options, indices, before, primitiveInfos, start, end, leaf, mid, dim);
    }

    /** Partitions the range at the SAH's chosen bucket, which yields a valid split. */
    method SahPartition(start: int, end: int, centroidBounds: Box, dim: Axis, minCostSplitBucket: int) returns (mid: int)
      requires 0 <= start && start + 4 < end <= |primitiveInfos| && Valid()
      requires options.strategy == SAH && options.sahBuckets >= 2 && 0 <= minCostSplitBucket < options.sahBuckets - 1
      requires centroidBounds == CentroidBoundsOf(primitiveInfos[start..end]) && dim == MaximumExtent(centroidBounds)
      requires Extent(centroidBounds, dim) > 0.0
      modifies this`primitiveInfos
      ensures Valid() && |primitiveInfos| == old(|primitiveInfos|)
      ensures primitiveInfos[..start] == old(primitiveInfos[..start]) && primitiveInfos[end..] == old(primitiveInfos[end..])
      ensures multiset(primitiveInfos[start..end]) == multiset(old(primitiveInfos[start..end]))
      ensures CentroidBoundsOf(primitiveInfos[start..end]) == centroidBounds
      ensures start < mid < end && SplitChoice(options, primitiveInfos[start..end], mid - start)
      ensures var s := old(primitiveInfos[start..end]); var g := SahGrid(options, s);
        && primitiveInfos == old(primitiveInfos[..start]) + LeftPart(g, minCostSplitBucket, s)
                             + RightPart(g, minCostSplitBucket, s) + old(primitiveInfos[end..])
        && mid == start + |LeftPart(g, minCostSplitBucket, s)|
    {
      ghost var before := primitiveInfos;
      mid := PartitionPrimInfoByBucket(start, end, centroidBounds, minCostSplitBucket, dim);
      assert Grid(options.sahBuckets, centroidBounds, dim) == SahGrid(options, before[start..end]);
      SahPartitioned(options, indices, before, primitiveInfos, start, end, minCostSplitBucket, mid);
    }

    /**
     * Builds the two children over start .. mid and mid .. end, links them
     * into an inner node split along `dim` and registers them, first child
     * then second, after everything registered while building them.
     */
    method BuildChildren(start: int, mid: int, end: int, dim: Axis, ghost s: seq<PrimitiveInfo>, ghost p0: seq<PrimitiveInfo>, ghost p1: seq<PrimitiveInfo>)
      returns (node: BVHNode)
      requires 0 <= start < mid < end <= |primitiveInfos| && Valid()
      requires p0 == primitiveInfos[start..mid] && p1 == primitiveInfos[mid..end]
      requires options.strategy == SAH ==> options.sahBuckets >= 2
      requires |s| == end - start && multiset(primitiveInfos[start..end]) == multiset(s)
      requires CentroidBoundsOf(primitiveInfos[start..end]) == CentroidBoundsOf(s)
      requires dim == MaximumExtent(CentroidBoundsOf(s)) && Extent(CentroidBoundsOf(s), dim) > 0.0
      requires SplitChoice(options, primitiveInfos[start..end], mid - start)
      modifies this`primitiveInfos, this`orderedIndices, this`nodes
      ensures Valid() && |primitiveInfos| == old(|primitiveInfos|)
      ensures primitiveInfos[..start] == old(primitiveInfos[..start]) && primitiveInfos[end..] == old(primitiveInfos[end..])
      ensures multiset(primitiveInfos[start..end]) == multiset(s)
      ensures AllIndicesValid(primitiveInfos[start..end], indices)
      ensures orderedIndices == old(orderedIndices) + TriangleIndices(indices, primitiveInfos[start..end])
      ensures WellBuilt(options, node, primitiveInfos[start..end], |old(orderedIndices)|)
      ensures |nodes| == |old(nodes)| + NodeCount(node) - 1 && nodes[..|old(nodes)|] == old(nodes)
      ensures RegisteredIn(nodes, node)
      ensures ChildrenBefore(nodes[|old(nodes)|..] + [node], |old(nodes)|)
      ensures node.children.Pair?
      ensures SplitAsDecided(options, node, p0, p1)
      ensures primitiveInfos[start..end] == SplitOrder(options, p0, p1)
      ensures options.strategy == EqualCount ==> primitiveInfos == old(primitiveInfos)
      decreases end - start, 0
    {
      ghost var a1, o1, n1 := primitiveInfos, orderedIndices, nodes;
      var c0 := RecursiveBuild(start, mid);
      ghost var a2, o2, n2 := primitiveInfos, orderedIndices, nodes;
      var c1 := RecursiveBuild(mid, end);
      ghost var a3, o3, n3 := primitiveInfos, orderedIndices, nodes;
      node := InitInnerNode(NewNode, dim, c0, c1);
      var c0Index := RegisterNode(c0);
      var c1Index := RegisterNode(c1);
      node := node.(c0Index := c0Index, c1Index := c1Index);
      assert primitiveInfos == a3 && orderedIndices == o3 && nodes == n3 + [c0] + [c1];
      ChildrenBuilt(options, indices, s, a1, a2, a3, o1, o2, o3, n1, n2, n3, start, mid, end, dim, c0, c1, node);
      ChildrenRegisteredBefore(n1, n2, n3, node, c0, c1);
      WellBuiltTotal(options, c0, a2[start..mid], |o1|);
      RangeParts(a1, a2, start, mid, end, a1[start..end]);
      ChildOrdersCompose(options, a1, a2, a3, start, mid, end, p0, p1);
    }

    /**
     * Build: clears the ordered index list, builds over the first nPrims
     * records and registers the root last. The node list is not cleared.
     */
    method Build()
      requires 0 < nPrims <= |primitiveInfos| && Valid()
      requires options.strategy == SAH ==> options.sahBuckets >= 2
      modifies this`primitiveInfos, this`orderedIndices, this`nodes, this`rootNode, this`rootIndex
      ensures Valid() && |primitiveInfos| == old(|primitiveInfos|)
      ensures multiset(primitiveInfos[0..nPrims]) == multiset(old(primitiveInfos[0..nPrims]))
      ensures primitiveInfos[nPrims..] == old(primitiveInfos[nPrims..])
      ensures AllIndicesValid(primitiveInfos[0..nPrims], indices)
      ensures orderedIndices == TriangleIndices(indices, primitiveInfos[0..nPrims])
      ensures WellBuilt(options, rootNode, primitiveInfos[0..nPrims], 0)
      ensures |nodes| == |old(nodes)| + NodeCount(rootNode) && nodes[..|old(nodes)|] == old(nodes)
      ensures rootIndex == |nodes| - 1 && nodes[rootIndex] == rootNode
      ensures RegisteredIn(nodes, rootNode)
      ensures ChildrenBefore(nodes[|old(nodes)|..], |old(nodes)|)
      ensures options.strategy == EqualCount ==> primitiveInfos == old(primitiveInfos)
      ensures BuiltAsDecided(options, rootNode, old(primitiveInfos[0..nPrims]))
      ensures primitiveInfos[0..nPrims] == BuiltOrder(options, old(primitiveInfos[0..nPrims]))
    {
      orderedIndices := [];
      rootNode := RecursiveBuild(0, nPrims);
      ghost var before := nodes;
      rootIndex := RegisterNode(rootNode);
      assert nodes[..|before|] == before;
      assert nodes[|old(nodes)|..] == before[|old(nodes)|..] + [rootNode];
      RegisteredInPrefix(before, nodes, rootNode);
    }

    /** GetBvhNodes. */
    function GetBvhNodes(): seq<BVHNode>
      reads this
    {
      nodes
    }

    /** GetRootNodeIndex. */
    function GetRootNodeIndex(): int
      reads this
    {
      rootIndex
    }

    /** GetOrderedIndices. */
    function GetOrderedIndices(): seq<int>
      reads this
    {
      orderedIndices
    }
  }
}
