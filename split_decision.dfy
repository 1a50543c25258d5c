/**
 * The decision RecursiveBuild takes at each node, as a function of the
 * records of the range in their order on entry: a leaf, or a reordering of
 * the range and the first child's share of it; and the order in which the
 * builder registers nodes.
 */
module SplitDecision {
  import opened Geometry
  import opened Primitives
  import opened Sah
  import opened Nodes

  /** The centroids of the range spread along the axis of largest centroid extent. */
  predicate Spread(s: seq<PrimitiveInfo>)
    requires |s| > 0
  {
    var cb := CentroidBoundsOf(s);
    Extent(cb, MaximumExtent(cb)) > 0.0
  }

  /**
   * The bucket the SAH splits a range at: the first of the cheapest
   * candidates when the node's surface area is not zero and that candidate
   * costs less than a leaf (SAHPrimCost per record); -1 when the SAH keeps
   * the records together.
   */
  function SahSplitBucket(opts: BuilderOptions, s: seq<PrimitiveInfo>): (b: int)
    requires |s| > 0 && opts.sahBuckets >= 2 && Spread(s)
    ensures -1 <= b < opts.sahBuckets - 1
  {
    var g := SahGrid(opts, s);
    CentroidBoundsOfIsLeast(s, g.centroidBounds);
    CentroidsInGrid(g, s);
    var area := SurfaceArea(BoundsOf(s));
    if area == 0.0 then -1
    else
      var costs := SplitCosts(FillBuckets(g, s), area);
      var k := FirstMinIndex(costs);
      if costs[k] < (opts.sahPrimCost * |s|) as real then k else -1
  }

  /** SahSplitBucket in terms of the costs of the candidate splits, when the node's area is not zero. */
  lemma SahSplitBucketByCosts(opts: BuilderOptions, s: seq<PrimitiveInfo>)
    requires |s| > 0 && opts.sahBuckets >= 2 && Spread(s)
    ensures InGrid(SahGrid(opts, s), s)
    ensures var area := SurfaceArea(BoundsOf(s));
      && (area == 0.0 ==> SahSplitBucket(opts, s) == -1)
      && (area != 0.0 ==>
            var costs := SplitCosts(FillBuckets(SahGrid(opts, s), s), area);
            var k := FirstMinIndex(costs);
            SahSplitBucket(opts, s) == if costs[k] < (opts.sahPrimCost * |s|) as real then k else -1)
  {
    var g := SahGrid(opts, s);
    CentroidBoundsOfIsLeast(s, g.centroidBounds);
    CentroidsInGrid(g, s);
  }

  /**
   * The SAH keeps the records together exactly when it prefers a leaf;
   * otherwise its bucket is a candidate cheaper than a leaf that no
   * candidate undercuts, and every earlier candidate costs strictly more.
   */
  lemma SahSplitBucketIsCheapest(opts: BuilderOptions, s: seq<PrimitiveInfo>)
    requires |s| > 0 && opts.sahBuckets >= 2 && Spread(s)
    ensures InGrid(SahGrid(opts, s), s)
    ensures SahSplitBucket(opts, s) == -1 <==> SahPrefersLeaf(opts, s)
    ensures var b, area := SahSplitBucket(opts, s), SurfaceArea(BoundsOf(s));
      b >= 0 ==>
        && area != 0.0
        && var buckets := FillBuckets(SahGrid(opts, s), s);
           && SplitCost(buckets, b, area) < (opts.sahPrimCost * |s|) as real
           && (forall j | 0 <= j < opts.sahBuckets - 1 :: SplitCost(buckets, b, area) <= SplitCost(buckets, j, area))
           && (forall j | 0 <= j < b :: SplitCost(buckets, b, area) < SplitCost(buckets, j, area))
  {
    SahSplitBucketByCosts(opts, s);
  }

  /**
   * After an SAH partition at `split`, the range is the left side followed
   * by the right side, its records are those of `s`, and the split is a
   * valid choice for it.
   */
  lemma SahSplitChoice(opts: BuilderOptions, s: seq<PrimitiveInfo>, split: int, m: int)
    requires |s| > 4 && opts.strategy == SAH && opts.sahBuckets >= 2 && 0 <= split < opts.sahBuckets - 1
    requires Spread(s)
    requires m == |LeftPart(SahGrid(opts, s), split, s)|
    ensures 0 < m < |s|
    ensures var p := LeftPart(SahGrid(opts, s), split, s) + RightPart(SahGrid(opts, s), split, s);
      && multiset(p) == multiset(s) && |p| == |s|
      && CentroidBoundsOf(p) == CentroidBoundsOf(s) && BoundsOf(p) == BoundsOf(s)
      && SplitChoice(opts, p, m)
  {
    var g := SahGrid(opts, s);
    var l, r := LeftPart(g, split, s), RightPart(g, split, s);
    PartitionIsPermutation(g, split, s);
    ProperSplit(g, split, s);
    var p := l + r;
    BoundsOfPermutation(s, p);
    assert SahGrid(opts, p) == g;
    assert p[..m] == l && p[m..] == r;
    assert SeparatedAt(g, split, p, m);
  }

  /** What ChooseSplit decides for a range: a leaf, or the range's new order and the first child's share. */
  datatype Decision = Leaf | Split(order: seq<PrimitiveInfo>, m: int)

  /**
   * The decision for the records `s`, in their order on entry: a leaf for one
   * record and for centroids that do not spread; the middle, in the same
   * order, for equal counts and for the SAH on at most four records; and the
   * SAH's decision for more.
   */
  function Decide(opts: BuilderOptions, s: seq<PrimitiveInfo>): (d: Decision)
    requires |s| > 0 && (opts.strategy == SAH ==> opts.sahBuckets >= 2)
    ensures d.Split? ==> |d.order| == |s| && 0 < d.m < |s|
  {
    if |s| == 1 || !Spread(s) then Leaf
    else if opts.strategy == EqualCount || |s| <= 4 then Split(s, |s| / 2)
    else SahDecide(opts, s)
  }

  /**
   * The SAH's decision for spread centroids of more than four records: the
   * stable partition at its bucket when there is one, a leaf when there is
   * none and the records share a mesh, and the middle, in the same order,
   * when they do not.
   */
  function SahDecide(opts: BuilderOptions, s: seq<PrimitiveInfo>): (d: Decision)
    requires |s| > 4 && opts.sahBuckets >= 2 && Spread(s)
    ensures d.Split? ==> |d.order| == |s| && 0 < d.m < |s|
  {
    CentroidBoundsProper(s);
    var b := SahSplitBucket(opts, s);
    if b >= 0 then
      var g := SahGrid(opts, s);
      PartitionIsPermutation(g, b, s);
      ProperSplit(g, b, s);
      Split(LeftPart(g, b, s) + RightPart(g, b, s), |LeftPart(g, b, s)|)
    else if AllSameMesh(s) then Leaf
    else Split(s, |s| / 2)
  }

  /** The decision for a range too small to split or whose centroids do not spread. */
  lemma DecideKeepsTogether(opts: BuilderOptions, s: seq<PrimitiveInfo>)
    requires |s| > 0 && (opts.strategy == SAH ==> opts.sahBuckets >= 2)
    requires |s| == 1 || !Spread(s)
    ensures Decide(opts, s) == Leaf
  {
  }

  /** The decision for spread centroids under equal counts, or for at most four records. */
  lemma DecideMiddle(opts: BuilderOptions, s: seq<PrimitiveInfo>)
    requires |s| > 1 && (opts.strategy == SAH ==> opts.sahBuckets >= 2) && Spread(s)
    requires opts.strategy == EqualCount || |s| <= 4
    ensures Decide(opts, s) == Split(s, |s| / 2)
  {
  }

  /** The decision for spread centroids of more than four records under the SAH. */
  lemma DecideBySah(opts: BuilderOptions, s: seq<PrimitiveInfo>)
    requires |s| > 4 && opts.strategy == SAH && opts.sahBuckets >= 2 && Spread(s)
    ensures var b := SahSplitBucket(opts, s); var g := SahGrid(opts, s);
      Decide(opts, s) ==
        if b >= 0 then Split(LeftPart(g, b, s) + RightPart(g, b, s), |LeftPart(g, b, s)|)
        else if AllSameMesh(s) then Leaf
        else Split(s, |s| / 2)
  {
  }

  /**
   * Every decision is one the builder may take: a leaf only where a leaf is
   * allowed; a split only of spread centroids, into a reordering of the range
   * with the same boxes, at a valid choice for the new order.
   */
  lemma DecideValid(opts: BuilderOptions, s: seq<PrimitiveInfo>)
    requires |s| > 0 && (opts.strategy == SAH ==> opts.sahBuckets >= 2)
    ensures Decide(opts, s).Leaf? ==> LeafAllowed(opts, s)
    ensures Decide(opts, s).Split? ==>
      var t, m := Decide(opts, s).order, Decide(opts, s).m;
      && Spread(s)
      && multiset(t) == multiset(s)
      && CentroidBoundsOf(t) == CentroidBoundsOf(s) && BoundsOf(t) == BoundsOf(s)
      && SplitChoice(opts, t, m)
  {
    if |s| == 1 || !Spread(s) {
    } else if opts.strategy == EqualCount || |s| <= 4 {
    } else {
      CentroidBoundsProper(s);
      SahSplitBucketIsCheapest(opts, s);
      var b := SahSplitBucket(opts, s);
      if b >= 0 {
        SahSplitChoice(opts, s, b, |LeftPart(SahGrid(opts, s), b, s)|);
      }
    }
  }

  /**
   * The tree the builder returns for the records `s`, in their order on
   * entry: a leaf where Decide keeps them together; otherwise an inner node
   * split as decided over the two parts of the decided order.
   */
  predicate BuiltAsDecided(opts: BuilderOptions, n: BVHNode, s: seq<PrimitiveInfo>)
    requires opts.strategy == SAH ==> opts.sahBuckets >= 2
    decreases n, 2
  {
    && |s| > 0
    && match Decide(opts, s)
       case Leaf => n.children.NoChildren?
       case Split(order, m) => SplitAsDecided(opts, n, order[..m], order[m..])
  }

  /**
   * An inner node whose first child holds the records `p0` and whose
   * children are built as decided over `p0` and `p1`.
   */
  predicate SplitAsDecided(opts: BuilderOptions, n: BVHNode, p0: seq<PrimitiveInfo>, p1: seq<PrimitiveInfo>)
    requires opts.strategy == SAH ==> opts.sahBuckets >= 2
    decreases n, 1
  {
    && n.children.Pair?
    && PrimitiveTotal(n.children.child0) == |p0|
    && ChildAsDecided(opts, n.children.child0, p0)
    && ChildAsDecided(opts, n.children.child1, p1)
  }

  /** A child subtree built as decided for the records `p` of its part. */
  predicate ChildAsDecided(opts: BuilderOptions, c: BVHNode, p: seq<PrimitiveInfo>)
    requires opts.strategy == SAH ==> opts.sahBuckets >= 2
    decreases c, 3
  {
    BuiltAsDecided(opts, c, p)
  }

  /** A leaf where Decide keeps the records together is built as decided. */
  lemma LeafAsDecided(opts: BuilderOptions, s: seq<PrimitiveInfo>, node: BVHNode)
    requires |s| > 0 && (opts.strategy == SAH ==> opts.sahBuckets >= 2) && Decide(opts, s).Leaf?
    requires node.children.NoChildren?
    ensures BuiltAsDecided(opts, node, s)
  {
  }

  /** An inner node split as decided over the decided parts of `s` is built as decided for `s`. */
  lemma SplitBuiltAsDecided(opts: BuilderOptions, s: seq<PrimitiveInfo>, node: BVHNode, p0: seq<PrimitiveInfo>, p1: seq<PrimitiveInfo>)
    requires |s| > 0 && (opts.strategy == SAH ==> opts.sahBuckets >= 2) && Decide(opts, s).Split?
    requires var d := Decide(opts, s); p0 == d.order[..d.m] && p1 == d.order[d.m..]
    requires SplitAsDecided(opts, node, p0, p1)
    ensures BuiltAsDecided(opts, node, s)
  {
  }

  /**
   * The order the builder leaves the records `s` in: unchanged where Decide
   * keeps them together; otherwise the decided order, with each of its two
   * parts in turn left in its own built order.
   */
  ghost function BuiltOrder(opts: BuilderOptions, s: seq<PrimitiveInfo>): (r: seq<PrimitiveInfo>)
    requires |s| > 0 && (opts.strategy == SAH ==> opts.sahBuckets >= 2)
    ensures |r| == |s|
    decreases |s|, 1
  {
    match Decide(opts, s)
    case Leaf => s
    case Split(order, m) => SplitOrder(opts, order[..m], order[m..])
  }

  /** The built orders of two adjacent parts, one after the other. */
  ghost function SplitOrder(opts: BuilderOptions, p0: seq<PrimitiveInfo>, p1: seq<PrimitiveInfo>): (r: seq<PrimitiveInfo>)
    requires |p0| > 0 && |p1| > 0 && (opts.strategy == SAH ==> opts.sahBuckets >= 2)
    ensures |r| == |p0| + |p1|
    decreases |p0| + |p1|, 0
  {
    PartOrder(opts, p0) + PartOrder(opts, p1)
  }

  /** The built order of one part of a split. */
  ghost function PartOrder(opts: BuilderOptions, p: seq<PrimitiveInfo>): (r: seq<PrimitiveInfo>)
    requires |p| > 0 && (opts.strategy == SAH ==> opts.sahBuckets >= 2)
    ensures |r| == |p|
    decreases |p|, 2
  {
    BuiltOrder(opts, p)
  }

  /** Records Decide keeps together stay where they are. */
  lemma LeafOrder(opts: BuilderOptions, s: seq<PrimitiveInfo>)
    requires |s| > 0 && (opts.strategy == SAH ==> opts.sahBuckets >= 2) && Decide(opts, s).Leaf?
    ensures BuiltOrder(opts, s) == s
  {
  }

  /** Records Decide splits are left in the built orders of the two decided parts. */
  lemma SplitOrderOf(opts: BuilderOptions, s: seq<PrimitiveInfo>)
    requires |s| > 0 && (opts.strategy == SAH ==> opts.sahBuckets >= 2) && Decide(opts, s).Split?
    ensures var d := Decide(opts, s); BuiltOrder(opts, s) == SplitOrder(opts, d.order[..d.m], d.order[d.m..])
  {
  }

  /** Two parts are left one after the other, each in its built order. */
  lemma SplitOrderParts(opts: BuilderOptions, p0: seq<PrimitiveInfo>, p1: seq<PrimitiveInfo>)
    requires |p0| > 0 && |p1| > 0 && (opts.strategy == SAH ==> opts.sahBuckets >= 2)
    ensures SplitOrder(opts, p0, p1) == BuiltOrder(opts, p0) + BuiltOrder(opts, p1)
  {
  }

  /** The built order is a reordering of the records. */
  lemma {:induction false} BuiltOrderIsPermutation(opts: BuilderOptions, s: seq<PrimitiveInfo>)
    requires |s| > 0 && (opts.strategy == SAH ==> opts.sahBuckets >= 2)
    ensures multiset(BuiltOrder(opts, s)) == multiset(s)
    decreases |s|
  {
    var d := Decide(opts, s);
    if d.Leaf? {
      LeafOrder(opts, s);
    } else {
      DecideValid(opts, s);
      var p0, p1 := d.order[..d.m], d.order[d.m..];
      BuiltOrderIsPermutation(opts, p0);
      BuiltOrderIsPermutation(opts, p1);
      SplitOrderOf(opts, s);
      SplitOrderParts(opts, p0, p1);
      assert d.order == p0 + p1;
    }
  }

  /** Under equal counts every decision keeps the order, so the built order is the order on entry. */
  lemma {:induction false} EqualCountKeepsOrder(opts: BuilderOptions, s: seq<PrimitiveInfo>)
    requires |s| > 0 && opts.strategy == EqualCount
    ensures BuiltOrder(opts, s) == s
    decreases |s|
  {
    if |s| == 1 || !Spread(s) {
      DecideKeepsTogether(opts, s);
      LeafOrder(opts, s);
    } else {
      DecideMiddle(opts, s);
      var m := |s| / 2;
      EqualCountKeepsOrder(opts, s[..m]);
      EqualCountKeepsOrder(opts, s[m..]);
      SplitOrderOf(opts, s);
      SplitOrderParts(opts, s[..m], s[m..]);
      assert s == s[..m] + s[m..];
    }
  }

  /**
   * Every inner node of `list`, whose first entry sits at position `base` of
   * the node list, names children registered at or after `base` and before
   * itself: children are registered before their parent.
   */
  predicate ChildrenBefore(list: seq<BVHNode>, base: int) {
    forall k | 0 <= k < |list| :: list[k].children.Pair? ==> base <= list[k].c0Index && list[k].c1Index < base + k
  }

  /** The nodes registered for an inner node: the first child's, the second child's, the two children, then the parent. */
  lemma ChildrenBeforeJoin(l0: seq<BVHNode>, c0: BVHNode, l1: seq<BVHNode>, c1: BVHNode, n: BVHNode, base: int)
    requires ChildrenBefore(l0 + [c0], base) && ChildrenBefore(l1 + [c1], base + |l0|)
    requires base <= n.c0Index && n.c1Index < base + |l0| + |l1| + 2
    ensures ChildrenBefore(l0 + l1 + [c0, c1] + [n], base)
  {
    var all := l0 + l1 + [c0, c1] + [n];
    forall k | 0 <= k < |all| && all[k].children.Pair? ensures base <= all[k].c0Index && all[k].c1Index < base + k {
      if k < |l0| {
        assert all[k] == (l0 + [c0])[k];
      } else if k < |l0| + |l1| {
        assert all[k] == (l1 + [c1])[k - |l0|];
      } else if k == |l0| + |l1| {
        assert all[k] == (l0 + [c0])[|l0|];
      } else if k == |l0| + |l1| + 1 {
        assert all[k] == (l1 + [c1])[|l1|];
      }
    }
  }
}
