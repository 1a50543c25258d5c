/**
 * The pieces of the surface area heuristic that RecursiveBuild and
 * PartitionPrimInfoByBucket use: which bucket a centroid falls in, what the
 * buckets hold after the records of a range are dropped into them, the cost
 * of each candidate split, the pick of the cheapest one, and the stable
 * partition of a range at a bucket.
 */
module Sah {
  import opened Geometry
  import opened Primitives

  /** C#'s `(int)` conversion of a floating-point value: truncation toward zero. */
  function Truncate(x: real): int {
    if x >= 0.0 then x.Floor else -((-x).Floor)
  }

  /** Truncation moves a value toward zero by less than one. */
  lemma TruncateBounds(x: real)
    ensures x >= 0.0 ==> Truncate(x) as real <= x < Truncate(x) as real + 1.0
    ensures x < 0.0 ==> Truncate(x) as real - 1.0 < x <= Truncate(x) as real
  {
  }

  /** The bucket grid of one split evaluation: `nBuckets` slices of the centroid box along `dim`. */
  datatype Grid = Grid(nBuckets: int, centroidBounds: Box, dim: Axis)

  /** `(int)(K * offset)` for the centroid's offset along `dim`, with K itself moved into the last bucket. */
  function BucketIndex(g: Grid, center: Vec3): int {
    var b := Truncate(g.nBuckets as real * Component(Offset(g.centroidBounds, center), g.dim));
    if b == g.nBuckets then g.nBuckets - 1 else b
  }

  lemma ScaledTruncateInRange(k: int, o: real)
    requires k >= 1 && 0.0 <= o <= 1.0
    ensures 0 <= Truncate(k as real * o) <= k
    ensures o == 0.0 ==> Truncate(k as real * o) == 0
    ensures o == 1.0 ==> Truncate(k as real * o) == k
  {
    assert 0.0 <= k as real * o <= k as real;
    TruncateBounds(k as real * o);
  }

  /**
   * Every centroid of the centroid box falls in a bucket of the grid when the
   * box has positive extent along `dim`; the lowest centroid falls in bucket 0
   * and the highest in bucket K - 1.
   */
  lemma BucketIndexInRange(g: Grid, c: Vec3)
    requires g.nBuckets >= 1 && ContainsPoint(g.centroidBounds, c) && Extent(g.centroidBounds, g.dim) > 0.0
    ensures 0 <= BucketIndex(g, c) < g.nBuckets
    ensures Component(c, g.dim) == Component(g.centroidBounds.minimum, g.dim) ==> BucketIndex(g, c) == 0
    ensures Component(c, g.dim) == Component(g.centroidBounds.maximum, g.dim) ==> BucketIndex(g, c) == g.nBuckets - 1
  {
    OffsetInUnit(g.centroidBounds, c, g.dim);
    ScaledTruncateInRange(g.nBuckets, Component(Offset(g.centroidBounds, c), g.dim));
  }

  /** Every record of `s` falls in a bucket of the grid. */
  predicate InGrid(g: Grid, s: seq<PrimitiveInfo>) {
    forall i | 0 <= i < |s| :: 0 <= BucketIndex(g, s[i].center) < g.nBuckets
  }

  /** A grid over a centroid box of positive extent holds every record whose centroid lies in the box. */
  lemma CentroidsInGrid(g: Grid, s: seq<PrimitiveInfo>)
    requires g.nBuckets >= 1 && Extent(g.centroidBounds, g.dim) > 0.0
    requires forall i | 0 <= i < |s| :: ContainsPoint(g.centroidBounds, s[i].center)
    ensures InGrid(g, s)
  {
    forall i | 0 <= i < |s| ensures 0 <= BucketIndex(g, s[i].center) < g.nBuckets {
      BucketIndexInRange(g, s[i].center);
    }
  }

  // ---------------------------------------------------------------------
  // Buckets

  /** SAHBucketInfo. */
  datatype BucketInfo = BucketInfo(count: int, bounds: Box)

  /** A default SAHBucketInfo: no records and the zero box. */
  const EmptyBucket := BucketInfo(0, ZeroBox)

  /**
   * Dropping a record into a bucket: an empty bucket takes the record's whole
   * box, a non-empty one only grows to take in the record's centroid.
   */
  function AddToBucket(bucket: BucketInfo, p: PrimitiveInfo): (r: BucketInfo)
    ensures r.count == bucket.count + 1
    ensures bucket.count == 0 ==> r.bounds == p.bounds
    ensures bucket.count != 0 ==> ContainsBox(r.bounds, bucket.bounds) && ContainsPoint(r.bounds, p.center)
  {
    if bucket.count == 0 then BucketInfo(1, p.bounds)
    else BucketInfo(bucket.count + 1, UnionPoint(bucket.bounds, p.center))
  }

  /** The buckets after the records of `s` are dropped in, front to back. */
  function FillBuckets(g: Grid, s: seq<PrimitiveInfo>): (buckets: seq<BucketInfo>)
    requires g.nBuckets >= 1 && InGrid(g, s)
    ensures |buckets| == g.nBuckets
  {
    if s == [] then seq(g.nBuckets, _ => EmptyBucket)
    else
      var n := |s| - 1;
      assert InGrid(g, s[..n]) by {
        forall i | 0 <= i < n ensures 0 <= BucketIndex(g, s[..n][i].center) < g.nBuckets {
          assert s[..n][i] == s[i];
        }
      }
      var buckets := FillBuckets(g, s[..n]);
      var b := BucketIndex(g, s[n].center);
      buckets[b := AddToBucket(buckets[b], s[n])]
  }

  /** The records of `s` whose centroid falls in bucket `b`, in their order in `s`. */
  function InBucket(g: Grid, s: seq<PrimitiveInfo>, b: int): seq<PrimitiveInfo> {
    Filter((p: PrimitiveInfo) => BucketIndex(g, p.center) == b, s)
  }

  /** `c` encloses the box of the first of `ms` and the centroids of the others. */
  predicate HoldsMembers(c: Box, ms: seq<PrimitiveInfo>) {
    && |ms| > 0
    && ContainsBox(c, ms[0].bounds)
    && forall i | 1 <= i < |ms| :: ContainsPoint(c, ms[i].center)
  }

  /**
   * What a filled bucket holds: the default bucket when no record falls in
   * it; otherwise the number of records that fall in it, and the least box
   * that encloses the box of the first of them and the centroids of the rest
   * (every box `c` that does so encloses the bucket's box).
   */
  lemma {:induction false} FilledBucket(g: Grid, s: seq<PrimitiveInfo>, b: int, c: Box)
    requires g.nBuckets >= 1 && InGrid(g, s) && 0 <= b < g.nBuckets
    ensures var ms, bucket := InBucket(g, s, b), FillBuckets(g, s)[b];
      && bucket.count == |ms|
      && (ms == [] ==> bucket == EmptyBucket)
      && (ms != [] ==> HoldsMembers(bucket.bounds, ms))
      && (HoldsMembers(c, ms) ==> ContainsBox(c, bucket.bounds))
  {
    if s != [] {
      var n := |s| - 1;
      InGridPrefix(g, s, n);
      FilledBucket(g, s[..n], b, c);
      var prev, ms := FillBuckets(g, s[..n])[b], InBucket(g, s[..n], b);
      var k := BucketIndex(g, s[n].center);
      if k == b {
        assert InBucket(g, s, b) == ms + [s[n]];
        assert FillBuckets(g, s)[b] == AddToBucket(prev, s[n]);
        if ms != [] {
          var bucket := AddToBucket(prev, s[n]);
          assert HoldsMembers(bucket.bounds, ms + [s[n]]) by {
            forall i | 1 <= i < |ms| + 1 ensures ContainsPoint(bucket.bounds, (ms + [s[n]])[i].center) {
              if i < |ms| {
                assert (ms + [s[n]])[i] == ms[i];
              }
            }
          }
          if HoldsMembers(c, ms + [s[n]]) {
            assert HoldsMembers(c, ms) by {
              forall i | 1 <= i < |ms| ensures ContainsPoint(c, ms[i].center) {
                assert (ms + [s[n]])[i] == ms[i];
              }
            }
            assert ContainsPoint(c, (ms + [s[n]])[|ms|].center);
            UnionPointIsLeast(prev.bounds, s[n].center, c);
          }
        }
      } else {
        assert InBucket(g, s, b) == ms;
      }
    }
  }

  /** A record dropped in after `s`: only its own bucket changes. */
  lemma FillBucketsStep(g: Grid, s: seq<PrimitiveInfo>, p: PrimitiveInfo)
    requires g.nBuckets >= 1 && InGrid(g, s) && 0 <= BucketIndex(g, p.center) < g.nBuckets
    ensures InGrid(g, s + [p])
    ensures FillBuckets(g, s + [p]) == FillBuckets(g, s)[BucketIndex(g, p.center) := AddToBucket(FillBuckets(g, s)[BucketIndex(g, p.center)], p)]
  {
    assert (s + [p])[..|s|] == s;
    assert (s + [p])[|s|] == p;
    forall i | 0 <= i < |s| + 1 ensures 0 <= BucketIndex(g, (s + [p])[i].center) < g.nBuckets {
      if i < |s| {
        assert (s + [p])[i] == s[i];
      }
    }
  }

  /**
   * Step `k` of filling the buckets from `s` front to back: the prefix stays
   * in the grid, only record k's bucket changes, and the prefix shares the
   * first record's mesh exactly when the shorter one does and record k has it.
   */
  lemma FillRangeStep(g: Grid, s: seq<PrimitiveInfo>, k: int)
    requires g.nBuckets >= 1 && InGrid(g, s) && 0 <= k < |s|
    ensures InGrid(g, s[..k]) && InGrid(g, s[..k + 1]) && 0 <= BucketIndex(g, s[k].center) < g.nBuckets
    ensures var b := BucketIndex(g, s[k].center);
      FillBuckets(g, s[..k + 1]) == FillBuckets(g, s[..k])[b := AddToBucket(FillBuckets(g, s[..k])[b], s[k])]
    ensures AllSameMesh(s[..k + 1]) == (AllSameMesh(s[..k]) && s[k].meshIndex == s[0].meshIndex)
  {
    InGridPrefix(g, s, k);
    assert s[..k + 1] == s[..k] + [s[k]];
    FillBucketsStep(g, s[..k], s[k]);
    AllSameMeshStep(s[..k], s[k]);
  }

  /** A prefix of records in the grid is in the grid. */
  lemma InGridPrefix(g: Grid, s: seq<PrimitiveInfo>, n: nat)
    requires InGrid(g, s) && n <= |s|
    ensures InGrid(g, s[..n])
  {
    forall i | 0 <= i < n ensures 0 <= BucketIndex(g, s[..n][i].center) < g.nBuckets {
      assert s[..n][i] == s[i];
    }
  }

  /** The number of records of `s` whose centroid falls in bucket `b`. */
  function CountInBucket(g: Grid, s: seq<PrimitiveInfo>, b: int): nat {
    if s == [] then 0
    else CountInBucket(g, s[..|s| - 1], b) + (if BucketIndex(g, s[|s| - 1].center) == b then 1 else 0)
  }

  /** The total of the counts of a run of buckets. */
  function SumCounts(buckets: seq<BucketInfo>): int {
    if buckets == [] then 0 else SumCounts(buckets[..|buckets| - 1]) + buckets[|buckets| - 1].count
  }

  lemma {:induction false} SumCountsAppend(a: seq<BucketInfo>, b: seq<BucketInfo>)
    ensures SumCounts(a + b) == SumCounts(a) + SumCounts(b)
  {
    if b != [] {
      assert (a + b)[..|a + b| - 1] == a + b[..|b| - 1];
      SumCountsAppend(a, b[..|b| - 1]);
    } else {
      assert a + b == a;
    }
  }

  lemma {:induction false} SumCountsIncrement(buckets: seq<BucketInfo>, b: nat, r: BucketInfo)
    requires b < |buckets| && r.count == buckets[b].count + 1
    ensures SumCounts(buckets[b := r]) == SumCounts(buckets) + 1
  {
    var n := |buckets| - 1;
    if b < n {
      assert buckets[b := r][..n] == buckets[..n][b := r];
      SumCountsIncrement(buckets[..n], b, r);
    } else {
      assert buckets[b := r][..n] == buckets[..n];
    }
  }

  lemma {:induction false} SumCountsEmpty(k: nat)
    ensures SumCounts(seq(k, _ => EmptyBucket)) == 0
  {
    if k > 0 {
      assert seq(k, _ => EmptyBucket)[..k - 1] == seq(k - 1, _ => EmptyBucket);
      SumCountsEmpty(k - 1);
    }
  }

  /**
   * Each bucket counts exactly the records whose centroid falls in it, and
   * the counts of all buckets add up to the number of records.
   */
  lemma {:induction false} FillBucketsCounts(g: Grid, s: seq<PrimitiveInfo>)
    requires g.nBuckets >= 1 && InGrid(g, s)
    ensures forall b | 0 <= b < g.nBuckets :: FillBuckets(g, s)[b].count == CountInBucket(g, s, b)
    ensures SumCounts(FillBuckets(g, s)) == |s|
  {
    if s == [] {
      SumCountsEmpty(g.nBuckets);
    } else {
      var n := |s| - 1;
      assert InGrid(g, s[..n]) by {
        forall i | 0 <= i < n ensures 0 <= BucketIndex(g, s[..n][i].center) < g.nBuckets {
          assert s[..n][i] == s[i];
        }
      }
      FillBucketsCounts(g, s[..n]);
      var prev := FillBuckets(g, s[..n]);
      var b := BucketIndex(g, s[n].center);
      assert 0 <= b < g.nBuckets;
      SumCountsIncrement(prev, b, AddToBucket(prev[b], s[n]));
    }
  }

  // ---------------------------------------------------------------------
  // Split costs

  /** The traversal cost the source writes as the literal 0.125f (SAHBundleCost is never read). */
  const TraversalCost: real := 0.125

  /** The union of a run of buckets' boxes, started from `new Bounds()`, the zero box. */
  function FoldBounds(buckets: seq<BucketInfo>): (r: Box)
    ensures forall j | 0 <= j < |buckets| :: ContainsBox(r, buckets[j].bounds)
  {
    if buckets == [] then ZeroBox
    else Union(FoldBounds(buckets[..|buckets| - 1]), buckets[|buckets| - 1].bounds)
  }

  /** The fold is the least box that encloses the origin and every bucket's box. */
  lemma {:induction false} FoldBoundsIsLeast(buckets: seq<BucketInfo>, c: Box)
    requires ContainsPoint(c, Vec3(0.0, 0.0, 0.0))
    requires forall j | 0 <= j < |buckets| :: ContainsBox(c, buckets[j].bounds)
    ensures ContainsBox(c, FoldBounds(buckets))
  {
    if buckets != [] {
      var n := |buckets| - 1;
      forall j | 0 <= j < n ensures ContainsBox(c, buckets[..n][j].bounds) {
        assert buckets[..n][j] == buckets[j];
      }
      FoldBoundsIsLeast(buckets[..n], c);
      UnionIsLeast(FoldBounds(buckets[..n]), buckets[n].bounds, c);
    }
  }

  /** Because the fold starts from the zero box, every candidate's box contains the origin. */
  lemma {:induction false} FoldBoundsHasOrigin(buckets: seq<BucketInfo>)
    ensures ContainsPoint(FoldBounds(buckets), Vec3(0.0, 0.0, 0.0))
  {
    if buckets != [] {
      FoldBoundsHasOrigin(buckets[..|buckets| - 1]);
    }
  }

  /** Traversal cost plus the area-weighted counts of two sides, over the area of the node. */
  function CostOf(count0: int, box0: Box, count1: int, box1: Box, totalArea: real): real
    requires totalArea != 0.0
  {
    TraversalCost + ((count0 as real) * SurfaceArea(box0) + (count1 as real) * SurfaceArea(box1)) / totalArea
  }

  /** Split after bucket `i`: buckets 0..i on one side, the rest on the other. */
  function SplitCost(buckets: seq<BucketInfo>, i: int, totalArea: real): real
    requires 0 <= i < |buckets| - 1 && totalArea != 0.0
  {
    var left, right := buckets[..i + 1], buckets[i + 1..];
    CostOf(SumCounts(left), FoldBounds(left), SumCounts(right), FoldBounds(right), totalArea)
  }

  /** The two sides of every candidate split together count every record. */
  lemma SplitCountsAddUp(buckets: seq<BucketInfo>, i: int)
    requires 0 <= i < |buckets| - 1
    ensures SumCounts(buckets[..i + 1]) + SumCounts(buckets[i + 1..]) == SumCounts(buckets)
  {
    assert buckets == buckets[..i + 1] + buckets[i + 1..];
    SumCountsAppend(buckets[..i + 1], buckets[i + 1..]);
  }

  /** The cost of every candidate split, in candidate order. */
  function SplitCosts(buckets: seq<BucketInfo>, totalArea: real): (costs: seq<real>)
    requires |buckets| >= 2 && totalArea != 0.0
    ensures |costs| == |buckets| - 1
    ensures forall i | 0 <= i < |costs| :: costs[i] == SplitCost(buckets, i, totalArea)
  {
    seq(|buckets| - 1, i requires 0 <= i < |buckets| - 1 => SplitCost(buckets, i, totalArea))
  }

  /**
   * The cheapest of a non-empty list of costs, ties going to the earliest:
   * scanning front to back, a later cost replaces the current pick only when
   * strictly smaller.
   */
  function FirstMinIndex(c: seq<real>): (k: int)
    requires |c| >= 1
    ensures 0 <= k < |c|
    ensures forall j | 0 <= j < |c| :: c[k] <= c[j]
    ensures forall j | 0 <= j < k :: c[k] < c[j]
  {
    if |c| == 1 then 0
    else
      var k := FirstMinIndex(c[..|c| - 1]);
      if c[|c| - 1] < c[k] then |c| - 1 else k
  }

  /** An index that no cost undercuts, and that every earlier cost exceeds, is the first cheapest one. */
  lemma FirstMinIndexUnique(c: seq<real>, k: int)
    requires 0 <= k < |c|
    requires forall j | 0 <= j < |c| :: c[k] <= c[j]
    requires forall j | 0 <= j < k :: c[k] < c[j]
    ensures k == FirstMinIndex(c)
  {
  }

  /**
   * The cost of every candidate split, computed as the source does: for each
   * candidate, one loop over the buckets left of it and one over those right of it.
   */
  method EvaluateCosts(buckets: array<BucketInfo>, totalArea: real) returns (cost: array<real>)
    requires buckets.Length >= 2 && totalArea != 0.0
    ensures fresh(cost) && cost.Length == buckets.Length - 1
    ensures forall i | 0 <= i < cost.Length :: cost[i] == SplitCost(buckets[..], i, totalArea)
  {
    var k := buckets.Length;
    cost := new real[k - 1];
    for i := 0 to k - 1
      invariant forall i' | 0 <= i' < i :: cost[i'] == SplitCost(buckets[..], i', totalArea)
    {
      var b0, count0 := FoldBucketRange(buckets, 0, i + 1);
      var b1, count1 := FoldBucketRange(buckets, i + 1, k);
      assert buckets[0..i + 1] == buckets[..][..i + 1] && buckets[i + 1..k] == buckets[..][i + 1..];
      cost[i] := CostOf(count0, b0, count1, b1, totalArea);
    }
  }

  /** One of EvaluateCosts' inner loops: the union of the boxes of buckets lo .. hi, grown from the zero box, and their total count. */
  method FoldBucketRange(buckets: array<BucketInfo>, lo: int, hi: int) returns (b: Box, count: int)
    requires 0 <= lo <= hi <= buckets.Length
    ensures b == FoldBounds(buckets[lo..hi]) && count == SumCounts(buckets[lo..hi])
  {
    b, count := ZeroBox, 0;
    for j := lo to hi
      invariant b == FoldBounds(buckets[lo..j]) && count == SumCounts(buckets[lo..j])
    {
      assert buckets[lo..j + 1][..j - lo] == buckets[lo..j];
      b := Union(b, buckets[j].bounds);
      count := count + buckets[j].count;
    }
  }

  /**
   * The cheapest candidate: the lowest index whose cost no other candidate
   * undercuts (a later candidate replaces the current one only when strictly cheaper).
   */
  method MinCostSplitBucket(cost: array<real>) returns (minCost: real, minIndex: int)
    requires cost.Length >= 1
    ensures 0 <= minIndex < cost.Length && minCost == cost[minIndex]
    ensures forall j | 0 <= j < cost.Length :: minCost <= cost[j]
    ensures forall j | 0 <= j < minIndex :: minCost < cost[j]
    ensures minIndex == FirstMinIndex(cost[..])
  {
    minCost, minIndex := cost[0], 0;
    for i := 1 to cost.Length
      invariant 0 <= minIndex < i && minCost == cost[minIndex]
      invariant forall j | 0 <= j < i :: minCost <= cost[j]
      invariant forall j | 0 <= j < minIndex :: minCost < cost[j]
    {
      if cost[i] < minCost {
        minCost, minIndex := cost[i], i;
      }
    }
    FirstMinIndexUnique(cost[..], minIndex);
  }

  // ---------------------------------------------------------------------
  // The stable partition at a bucket

  /** A record goes to the left side when its bucket is at most `split`. */
  predicate GoesLeft(g: Grid, split: int, p: PrimitiveInfo) {
    BucketIndex(g, p.center) <= split
  }

  /** The elements of `s` that satisfy `f`, in their order in `s`. */
  function Filter<T>(f: T -> bool, s: seq<T>): (r: seq<T>)
    ensures |r| <= |s|
  {
    if s == [] then []
    else Filter(f, s[..|s| - 1]) + (if f(s[|s| - 1]) then [s[|s| - 1]] else [])
  }

  /** The elements of `s` that do not satisfy `f`, in their order in `s`. */
  function Reject<T>(f: T -> bool, s: seq<T>): (r: seq<T>)
    ensures |r| <= |s|
  {
    if s == [] then []
    else Reject(f, s[..|s| - 1]) + (if f(s[|s| - 1]) then [] else [s[|s| - 1]])
  }

  /** The records that go left, in their order in `s`. */
  function LeftPart(g: Grid, split: int, s: seq<PrimitiveInfo>): seq<PrimitiveInfo> {
    Filter(p => GoesLeft(g, split, p), s)
  }

  /** The records that go right, in their order in `s`. */
  function RightPart(g: Grid, split: int, s: seq<PrimitiveInfo>): seq<PrimitiveInfo> {
    Reject(p => GoesLeft(g, split, p), s)
  }

  /** One more record: it joins the end of the side it goes to. */
  lemma PartitionStep(g: Grid, split: int, s: seq<PrimitiveInfo>, p: PrimitiveInfo)
    ensures LeftPart(g, split, s + [p]) == LeftPart(g, split, s) + (if GoesLeft(g, split, p) then [p] else [])
    ensures RightPart(g, split, s + [p]) == RightPart(g, split, s) + (if GoesLeft(g, split, p) then [] else [p])
  {
    assert (s + [p])[..|s|] == s;
  }

  lemma MultisetInsert<T>(a: seq<T>, b: seq<T>, c: seq<T>)
    ensures multiset(a + b + c) == multiset(a + c) + multiset(b)
  {
    assert a + b + c == a + (b + c);
  }

  /** Filtering by a test and rejecting by it splits `s` into two parts that together hold each element once. */
  lemma {:induction false} FilterSplits<T>(f: T -> bool, s: seq<T>)
    ensures multiset(Filter(f, s)) + multiset(Reject(f, s)) == multiset(s)
  {
    if s != [] {
      var n := |s| - 1;
      FilterSplits(f, s[..n]);
      FilterLast(f, s);
      RejectLast(f, s);
      MultisetLast(s);
    }
  }

  lemma MultisetLast<T>(s: seq<T>)
    requires s != []
    ensures multiset(s) == multiset(s[..|s| - 1]) + multiset{s[|s| - 1]}
  {
    assert s == s[..|s| - 1] + [s[|s| - 1]];
  }

  lemma FilterLast<T>(f: T -> bool, s: seq<T>)
    requires s != []
    ensures multiset(Filter(f, s)) == multiset(Filter(f, s[..|s| - 1])) + (if f(s[|s| - 1]) then multiset{s[|s| - 1]} else multiset{})
  {
  }

  lemma RejectLast<T>(f: T -> bool, s: seq<T>)
    requires s != []
    ensures multiset(Reject(f, s)) == multiset(Reject(f, s[..|s| - 1])) + (if f(s[|s| - 1]) then multiset{} else multiset{s[|s| - 1]})
  {
  }

  lemma {:induction false} FilterSatisfies<T>(f: T -> bool, s: seq<T>)
    ensures forall i | 0 <= i < |Filter(f, s)| :: f(Filter(f, s)[i])
  {
    if s != [] {
      FilterSatisfies(f, s[..|s| - 1]);
    }
  }

  lemma {:induction false} RejectFails<T>(f: T -> bool, s: seq<T>)
    ensures forall i | 0 <= i < |Reject(f, s)| :: !f(Reject(f, s)[i])
  {
    if s != [] {
      RejectFails(f, s[..|s| - 1]);
    }
  }

  lemma {:induction false} FilterAppend<T>(f: T -> bool, a: seq<T>, b: seq<T>)
    ensures Filter(f, a + b) == Filter(f, a) + Filter(f, b)
  {
    if b == [] {
      assert a + b == a;
    } else {
      var n := |b| - 1;
      assert (a + b)[..|a + b| - 1] == a + b[..n];
      assert (a + b)[|a + b| - 1] == b[n];
      FilterAppend(f, a, b[..n]);
    }
  }

  lemma {:induction false} RejectAppend<T>(f: T -> bool, a: seq<T>, b: seq<T>)
    ensures Reject(f, a + b) == Reject(f, a) + Reject(f, b)
  {
    if b == [] {
      assert a + b == a;
    } else {
      var n := |b| - 1;
      assert (a + b)[..|a + b| - 1] == a + b[..n];
      assert (a + b)[|a + b| - 1] == b[n];
      RejectAppend(f, a, b[..n]);
    }
  }

  lemma {:induction false} RejectKeeps<T>(f: T -> bool, s: seq<T>, i: nat)
    requires i < |s| && !f(s[i])
    ensures s[i] in Reject(f, s)
  {
    var n := |s| - 1;
    if i < n {
      RejectKeeps(f, s[..n], i);
      assert s[..n][i] == s[i];
    }
  }

  lemma {:induction false} FilterKeeps<T>(f: T -> bool, s: seq<T>, i: nat)
    requires i < |s| && f(s[i])
    ensures s[i] in Filter(f, s)
  {
    var n := |s| - 1;
    if i < n {
      FilterKeeps(f, s[..n], i);
      assert s[..n][i] == s[i];
    }
  }

  /**
   * The partition keeps every record exactly once: the left side followed by
   * the right side is a permutation of the range, the left side holds only
   * records whose bucket is at most `split` and the right side only the others.
   */
  lemma PartitionIsPermutation(g: Grid, split: int, s: seq<PrimitiveInfo>)
    ensures multiset(LeftPart(g, split, s) + RightPart(g, split, s)) == multiset(s)
    ensures |LeftPart(g, split, s)| + |RightPart(g, split, s)| == |s|
    ensures forall i | 0 <= i < |LeftPart(g, split, s)| :: GoesLeft(g, split, LeftPart(g, split, s)[i])
    ensures forall i | 0 <= i < |RightPart(g, split, s)| :: !GoesLeft(g, split, RightPart(g, split, s)[i])
  {
    FilterSplits(p => GoesLeft(g, split, p), s);
    assert multiset(LeftPart(g, split, s) + RightPart(g, split, s)) == multiset(s);
    assert |multiset(LeftPart(g, split, s) + RightPart(g, split, s))| == |s|;
    FilterSatisfies(p => GoesLeft(g, split, p), s);
    RejectFails(p => GoesLeft(g, split, p), s);
  }

  /**
   * Stability: partitioning a range made of two parts gives the left side of
   * the first part before that of the second, and likewise on the right, so
   * each side keeps the records' relative order.
   */
  lemma PartitionIsStable(g: Grid, split: int, a: seq<PrimitiveInfo>, b: seq<PrimitiveInfo>)
    ensures LeftPart(g, split, a + b) == LeftPart(g, split, a) + LeftPart(g, split, b)
    ensures RightPart(g, split, a + b) == RightPart(g, split, a) + RightPart(g, split, b)
  {
    FilterAppend(p => GoesLeft(g, split, p), a, b);
    RejectAppend(p => GoesLeft(g, split, p), a, b);
  }

  /**
   * A split bucket below the last leaves both sides non-empty when the grid
   * spans the range's own centroid box: the lowest centroid lands in bucket 0
   * and goes left, the highest lands in bucket K - 1 and goes right.
   */
  lemma ProperSplit(g: Grid, split: int, s: seq<PrimitiveInfo>)
    requires |s| > 0 && g.centroidBounds == CentroidBoundsOf(s)
    requires g.nBuckets >= 2 && 0 <= split <= g.nBuckets - 2
    requires Extent(g.centroidBounds, g.dim) > 0.0
    ensures 0 < |LeftPart(g, split, s)| < |s|
  {
    var lo, hi := CentroidExtremes(s, g.dim);
    CentroidBoundsOfIsLeast(s, g.centroidBounds);
    BucketIndexInRange(g, s[lo].center);
    BucketIndexInRange(g, s[hi].center);
    FilterKeeps(p => GoesLeft(g, split, p), s, lo);
    RejectKeeps(p => GoesLeft(g, split, p), s, hi);
    PartitionIsPermutation(g, split, s);
  }
}
