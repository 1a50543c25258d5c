/**
 * BVH nodes and what it means for a subtree to be built correctly over a
 * range of primitive records.
 *
 * A BVHNode is modelled as a value. The builder creates each node, fills
 * it in with InitLeafNode or InitInnerNode and sets its child indices
 * before it hands the node to anyone (as a child of its parent or as an
 * entry of the node list), and never changes it afterwards, so a value
 * holds everything the reference did.
 */
module Nodes {
  import opened Geometry
  import opened Primitives
  import opened Sah

  /** BVHSplitStrategy. */
  datatype SplitStrategy = EqualCount | SAH

  /** BVHBuilderOptions; `sahBundleCost` is carried but never read by the builder. */
  datatype BuilderOptions = BuilderOptions(strategy: SplitStrategy, sahBuckets: int, sahBundleCost: int, sahPrimCost: int)

  /** A node's children: none for a leaf, two for an inner node. */
  datatype Children = NoChildren | Pair(child0: BVHNode, child1: BVHNode)

  /** BVHNode. `firstPrimOffset` counts positions in the ordered index list, three per triangle. */
  datatype BVHNode = BVHNode(
    bounds: Box,
    splitAxis: int,
    firstPrimOffset: int,
    primCount: int,
    meshIndex: int,
    children: Children,
    c0Index: int,
    c1Index: int)

  /** `new BVHNode()`: every number 0, the zero box, no children. */
  const NewNode := BVHNode(ZeroBox, 0, 0, 0, 0, NoChildren, 0, 0)

  /** InitLeafNode: sets the leaf fields and drops the children; the split axis and child indices keep their values. */
  function InitLeafNode(node: BVHNode, first: int, n: int, b: Box, meshId: int): (r: BVHNode)
    ensures r.firstPrimOffset == first && r.primCount == n && r.bounds == b && r.meshIndex == meshId
    ensures r.children == NoChildren
    ensures r.splitAxis == node.splitAxis && r.c0Index == node.c0Index && r.c1Index == node.c1Index
  {
    node.(firstPrimOffset := first, primCount := n, bounds := b, children := NoChildren, meshIndex := meshId)
  }

  /**
   * InitInnerNode: links the two children, takes the smallest box enclosing
   * both and clears the primitive count; the first offset, mesh index and
   * child indices keep their values.
   */
  function InitInnerNode(node: BVHNode, axis: int, c0: BVHNode, c1: BVHNode): (r: BVHNode)
    ensures r.splitAxis == axis && r.children == Pair(c0, c1) && r.primCount == 0
    ensures ContainsBox(r.bounds, c0.bounds) && ContainsBox(r.bounds, c1.bounds)
    ensures r.firstPrimOffset == node.firstPrimOffset && r.meshIndex == node.meshIndex
    ensures r.c0Index == node.c0Index && r.c1Index == node.c1Index
  {
    node.(splitAxis := axis, children := Pair(c0, c1), bounds := Union(c0.bounds, c1.bounds), primCount := 0)
  }

  /** The number of primitives under a node: a leaf's own count, an inner node's children's together. */
  function PrimitiveTotal(n: BVHNode): int {
    match n.children
    case NoChildren => n.primCount
    case Pair(c0, c1) => PrimitiveTotal(c0) + PrimitiveTotal(c1)
  }

  /** The grid the SAH evaluates a range on: the configured number of buckets over the range's centroid box. */
  function SahGrid(opts: BuilderOptions, s: seq<PrimitiveInfo>): Grid
    requires |s| > 0
  {
    var cb := CentroidBoundsOf(s);
    Grid(opts.sahBuckets, cb, MaximumExtent(cb))
  }

  /**
   * The SAH keeps the range in one leaf: either the node's surface area is
   * zero (every candidate's cost is then infinite or not a number, and no
   * comparison with it holds), or no candidate split costs less than
   * SAHPrimCost times the number of primitives.
   */
  predicate SahPrefersLeaf(opts: BuilderOptions, s: seq<PrimitiveInfo>)
    requires |s| > 0
  {
    var g := SahGrid(opts, s);
    var area := SurfaceArea(BoundsOf(s));
    && g.nBuckets >= 2 && InGrid(g, s)
    && (area == 0.0 ||
        forall i | 0 <= i < g.nBuckets - 1 :: !(SplitCost(FillBuckets(g, s), i, area) < (opts.sahPrimCost * |s|) as real))
  }

  /** The first `m` records lie in buckets no higher than `split` and the rest in higher buckets. */
  predicate SeparatedAt(g: Grid, split: int, s: seq<PrimitiveInfo>, m: int)
    requires 0 <= m <= |s|
  {
    && (forall i | 0 <= i < m :: GoesLeft(g, split, s[i]))
    && (forall i | m <= i < |s| :: !GoesLeft(g, split, s[i]))
  }

  /**
   * Where the builder may split a range of records, given the first child's
   * share `m`: both children get records; equal counts (and the SAH on at most
   * four records) split in the middle; otherwise the SAH splits in the middle
   * or between the buckets up to some candidate and those after it.
   */
  predicate SplitChoice(opts: BuilderOptions, s: seq<PrimitiveInfo>, m: int)
    requires |s| > 0
  {
    && 0 < m < |s|
    && (opts.strategy == EqualCount || |s| <= 4 ==> m == |s| / 2)
    && (opts.strategy == SAH && |s| > 4 ==>
          m == |s| / 2 || exists split | 0 <= split < opts.sahBuckets - 1 :: SeparatedAt(SahGrid(opts, s), split, s, m))
  }

  /** Every range of records has a proper centroid box: it contains the first centroid. */
  lemma CentroidBoundsProper(s: seq<PrimitiveInfo>)
    requires |s| > 0
    ensures IsProper(CentroidBoundsOf(s))
    ensures forall d: Axis :: Extent(CentroidBoundsOf(s), d) >= 0.0
  {
    CentroidBoundsOfIsLeast(s, CentroidBoundsOf(s));
    assert ContainsPoint(CentroidBoundsOf(s), s[0].center);
  }

  /**
   * A split stays valid when each side is reordered within itself, as the
   * children's own builds do: the centroid box, the grid and each record's
   * side are the same.
   */
  lemma SplitChoiceReordered(opts: BuilderOptions, p: seq<PrimitiveInfo>, l: seq<PrimitiveInfo>, r: seq<PrimitiveInfo>)
    requires |p| > 0 && |l| + |r| == |p| && SplitChoice(opts, p, |l|)
    requires multiset(l) == multiset(p[..|l|]) && multiset(r) == multiset(p[|l|..])
    ensures multiset(l + r) == multiset(p)
    ensures CentroidBoundsOf(l + r) == CentroidBoundsOf(p) && BoundsOf(l + r) == BoundsOf(p)
    ensures SplitChoice(opts, l + r, |l|)
  {
    var f, m := l + r, |l|;
    assert p == p[..m] + p[m..] && f[..m] == l && f[m..] == r;
    BoundsOfPermutation(p, f);
    if opts.strategy == SAH && |p| > 4 && m != |p| / 2 {
      var split :| 0 <= split < opts.sahBuckets - 1 && SeparatedAt(SahGrid(opts, p), split, p, m);
      var g := SahGrid(opts, p);
      assert SahGrid(opts, f) == g;
      var goes := x => GoesLeft(g, split, x);
      var stays := x => !GoesLeft(g, split, x);
      AllReordered(goes, p[..m], l);
      AllReordered(stays, p[m..], r);
      assert SeparatedAt(g, split, f, m);
    }
  }

  /** A test that holds of every element of a sequence holds of every element of a reordering of it. */
  lemma AllReordered<T>(test: T -> bool, a: seq<T>, b: seq<T>)
    requires multiset(a) == multiset(b)
    requires forall i | 0 <= i < |a| :: test(a[i])
    ensures forall i | 0 <= i < |b| :: test(b[i])
  {
    forall i | 0 <= i < |b| ensures test(b[i]) {
      assert b[i] in multiset(a);
      var k :| 0 <= k < |a| && a[k] == b[i];
    }
  }

  /**
   * The builder makes a leaf of a range only for a single record, for a
   * range whose centroids all coincide along the axis of largest extent, or
   * when the SAH prefers a leaf for a range of more than four records of one mesh.
   */
  predicate LeafAllowed(opts: BuilderOptions, s: seq<PrimitiveInfo>)
    requires |s| > 0
  {
    var cb := CentroidBoundsOf(s);
    || |s| == 1
    || Extent(cb, MaximumExtent(cb)) == 0.0
    || (opts.strategy == SAH && |s| > 4 && AllSameMesh(s) && SahPrefersLeaf(opts, s))
  }

  /**
   * `n` is a subtree the builder produces for the records `s` (in their final
   * order) whose triangle indices start at position `offset` of the ordered
   * index list.
   *
   * A leaf holds every record of the range, at `offset`, with the range's
   * bounds and the first record's mesh; the builder makes one only for a
   * single record, for a range whose centroids all coincide along the chosen
   * axis, or when the SAH prefers a leaf for a range of one mesh.
   * An inner node splits along the axis of largest centroid extent, which
   * is positive; its first child takes the first `m` records, with `m` half
   * the range for equal counts (and for the SAH on at most four records), and
   * otherwise either half the range or a partition at an SAH bucket; its box
   * is the union of its children's.
   */
  predicate WellBuilt(opts: BuilderOptions, n: BVHNode, s: seq<PrimitiveInfo>, offset: int)
    decreases n, 1
  {
    && |s| > 0
    && match n.children
       case NoChildren => LeafBuilt(opts, n, s, offset)
       case Pair(_, _) => InnerBuilt(opts, n, s, offset)
  }

  /** A leaf holds the whole range: its count, first offset, box and mesh are the range's, and the builder may stop here. */
  predicate LeafBuilt(opts: BuilderOptions, n: BVHNode, s: seq<PrimitiveInfo>, offset: int)
    requires |s| > 0
  {
    && n.primCount == |s| && n.firstPrimOffset == offset
    && n.bounds == BoundsOf(s) && n.meshIndex == s[0].meshIndex
    && n.splitAxis == 0 && n.c0Index == 0 && n.c1Index == 0
    && LeafAllowed(opts, s)
  }

  /**
   * An inner node splits the range along the axis of largest positive
   * centroid extent at a valid choice, its box encloses exactly its
   * children's, and its children are well built over the two parts.
   */
  predicate InnerBuilt(opts: BuilderOptions, n: BVHNode, s: seq<PrimitiveInfo>, offset: int)
    requires |s| > 0 && n.children.Pair?
    decreases n, 0
  {
    var c0, c1 := n.children.child0, n.children.child1;
    var cb := CentroidBoundsOf(s);
    var m := PrimitiveTotal(c0);
    && n.primCount == 0 && n.firstPrimOffset == 0 && n.meshIndex == 0
    && n.splitAxis == MaximumExtent(cb) && Extent(cb, n.splitAxis) > 0.0
    && SplitChoice(opts, s, m)
    && n.bounds == Union(c0.bounds, c1.bounds)
    && WellBuilt(opts, c0, s[..m], offset)
    && WellBuilt(opts, c1, s[m..], offset + 3 * m)
  }

  /**
   * A well-built subtree's box is the union of its records' boxes, so it
   * encloses every triangle below it; it holds exactly its records; and it
   * is a leaf exactly when its own primitive count is positive.
   */
  lemma {:induction false} WellBuiltCovers(opts: BuilderOptions, n: BVHNode, s: seq<PrimitiveInfo>, offset: int)
    requires WellBuilt(opts, n, s, offset)
    ensures n.bounds == BoundsOf(s)
    ensures forall i | 0 <= i < |s| :: ContainsBox(n.bounds, s[i].bounds)
    ensures PrimitiveTotal(n) == |s|
    ensures n.children.NoChildren? <==> n.primCount > 0
    decreases n
  {
    match n.children {
      case NoChildren =>
      case Pair(c0, c1) =>
        var m := PrimitiveTotal(c0);
        WellBuiltCovers(opts, c0, s[..m], offset);
        WellBuiltCovers(opts, c1, s[m..], offset + 3 * m);
        assert s == s[..m] + s[m..];
        BoundsOfAppend(s[..m], s[m..]);
    }
    BoundsOfIsLeast(s, n.bounds);
  }

  /** A well-built subtree holds exactly its records. */
  lemma {:induction false} WellBuiltTotal(opts: BuilderOptions, n: BVHNode, s: seq<PrimitiveInfo>, offset: int)
    requires WellBuilt(opts, n, s, offset)
    ensures PrimitiveTotal(n) == |s|
    decreases n
  {
    match n.children {
      case NoChildren =>
      case Pair(c0, c1) =>
        var m := PrimitiveTotal(c0);
        WellBuiltTotal(opts, c0, s[..m], offset);
        WellBuiltTotal(opts, c1, s[m..], offset + 3 * m);
    }
  }

  /**
   * An inner node split along the axis of largest positive centroid extent,
   * at a valid choice `m`, over two well-built children for the first `m`
   * records and the rest, is itself well built, and holds all the records.
   */
  lemma InnerWellBuilt(opts: BuilderOptions, n: BVHNode, c0: BVHNode, c1: BVHNode,
                       l: seq<PrimitiveInfo>, r: seq<PrimitiveInfo>, offset: int, offset1: int)
    requires |l| > 0 && |r| > 0 && offset1 == offset + 3 * |l| && SplitChoice(opts, l + r, |l|)
    requires n.children == Pair(c0, c1) && n.primCount == 0 && n.firstPrimOffset == 0 && n.meshIndex == 0
    requires n.splitAxis == MaximumExtent(CentroidBoundsOf(l + r)) && Extent(CentroidBoundsOf(l + r), n.splitAxis) > 0.0
    requires n.bounds == Union(c0.bounds, c1.bounds)
    requires WellBuilt(opts, c0, l, offset) && WellBuilt(opts, c1, r, offset1)
    ensures WellBuilt(opts, n, l + r, offset)
  {
    WellBuiltTotal(opts, c0, l, offset);
    WellBuiltTotal(opts, c1, r, offset1);
    assert (l + r)[..|l|] == l && (l + r)[|l|..] == r;
  }

  // ---------------------------------------------------------------------
  // The leaves tile the ordered index list

  /** The leaves of a subtree, left to right. */
  function Leaves(n: BVHNode): seq<BVHNode>
    decreases n
  {
    match n.children
    case NoChildren => [n]
    case Pair(c0, c1) => Leaves(c0) + Leaves(c1)
  }

  /** The leaves' primitive counts added up. */
  function LeafTotal(leaves: seq<BVHNode>): int {
    if leaves == [] then 0 else leaves[0].primCount + LeafTotal(leaves[1..])
  }

  /** Each leaf's triangles start right where the previous leaf's end, the first at `offset`. */
  predicate Contiguous(leaves: seq<BVHNode>, offset: int) {
    leaves == [] || (leaves[0].firstPrimOffset == offset && Contiguous(leaves[1..], offset + 3 * leaves[0].primCount))
  }

  lemma {:induction false} ContiguousAppend(a: seq<BVHNode>, b: seq<BVHNode>, offset: int)
    requires Contiguous(a, offset) && Contiguous(b, offset + 3 * LeafTotal(a))
    ensures Contiguous(a + b, offset) && LeafTotal(a + b) == LeafTotal(a) + LeafTotal(b)
  {
    if a == [] {
      assert a + b == b;
    } else {
      assert (a + b)[1..] == a[1..] + b;
      ContiguousAppend(a[1..], b, offset + 3 * a[0].primCount);
    }
  }

  /**
   * The leaves of a well-built subtree, read left to right, cover the index
   * positions offset .. offset + 3|s| one after the other without gaps or
   * overlaps, and hold every record once.
   */
  lemma {:induction false} LeavesTile(opts: BuilderOptions, n: BVHNode, s: seq<PrimitiveInfo>, offset: int)
    requires WellBuilt(opts, n, s, offset)
    ensures Contiguous(Leaves(n), offset)
    ensures LeafTotal(Leaves(n)) == |s|
    decreases n
  {
    match n.children
    case NoChildren =>
      assert Leaves(n)[1..] == [];
    case Pair(c0, c1) =>
      var m := PrimitiveTotal(c0);
      LeavesTile(opts, c0, s[..m], offset);
      LeavesTile(opts, c1, s[m..], offset + 3 * m);
      ContiguousAppend(Leaves(c0), Leaves(c1), offset);
  }

  // ---------------------------------------------------------------------
  // Registration in the node list

  /** The number of nodes in a subtree. */
  function NodeCount(n: BVHNode): nat
    decreases n
  {
    match n.children
    case NoChildren => 1
    case Pair(c0, c1) => 1 + NodeCount(c0) + NodeCount(c1)
  }

  /**
   * Every inner node of the subtree names its children by their positions
   * in `nodes`: the first child at C0Index, the second right after it.
   */
  predicate RegisteredIn(nodes: seq<BVHNode>, n: BVHNode)
    decreases n
  {
    match n.children
    case NoChildren => true
    case Pair(c0, c1) =>
      && 0 <= n.c0Index && n.c1Index == n.c0Index + 1 && n.c1Index < |nodes|
      && nodes[n.c0Index] == c0 && nodes[n.c1Index] == c1
      && RegisteredIn(nodes, c0) && RegisteredIn(nodes, c1)
  }

  /** Registration survives growing the node list, as the nodes already in it keep their places. */
  lemma {:induction false} RegisteredInPrefix(nodes: seq<BVHNode>, more: seq<BVHNode>, n: BVHNode)
    requires RegisteredIn(nodes, n) && |nodes| <= |more| && more[..|nodes|] == nodes
    ensures RegisteredIn(more, n)
    decreases n
  {
    match n.children
    case NoChildren =>
    case Pair(c0, c1) =>
      assert more[n.c0Index] == nodes[n.c0Index] && more[n.c1Index] == nodes[n.c1Index];
      RegisteredInPrefix(nodes, more, c0);
      RegisteredInPrefix(nodes, more, c1);
  }
}
