# Unity path tracer core in Dafny

This project models the CPU side of a small Unity path tracer. It covers three parts.

- **The bounding volume hierarchy builder** (`Assets/Scripts/BVHBuilder.cs`).
  - It turns every triangle of every registered mesh into a primitive record: the triangle's world-space box, the box's centre, the triangle's position in the index list and its mesh.
  - It then builds the tree recursively over a range of those records.
  - Each range becomes a leaf when it holds one primitive, or when its centroids do not spread along the widest axis.
  - Otherwise the builder chooses a split. Under the equal-count strategy this is the midpoint. Under the surface area heuristic (SAH) the centroids are dropped into buckets, each of the `SAHBuckets - 1` split planes is costed, and the cheapest is taken when it beats the leaf cost. If it does not, the range becomes a leaf, but only when all its primitives share one mesh.
  - Each leaf appends its triangles' three vertex indices to the ordered index list.
  - Each inner node registers its two children in the node list.
- **The scene registry and frame loop** (`Assets/Scripts/PathTracer.cs`).
  - Scene objects register and unregister in a shared list.
  - When that list changes, the flattening loop rebuilds the global vertex, index, material and mesh-object lists. Each object's indices are shifted by the number of vertices already flattened.
  - The accumulated sample counter is reset by a rebuild or a camera move, and advances by one per rendered frame while it is below `MaxSamples`. `MaxSamples` is a public field, so the counter may be found above it, and then it stays where it is.
- **The material texture registry** (`Assets/Scripts/PathTracingMaterial.cs`).
  - There are four shared texture lists (albedo, metal/roughness, normal, emission).
  - A material registers each of its textures in the matching list and remembers the texture's index there.
  - Unregistering resets those indices. It removes the albedo, metal/roughness and normal textures from their lists again, and appends the emission texture to its list once more.
  - The material converts itself into the record the GPU reads.

The model is split into modules.

- `Geometry` (`geometry.dfy`) holds vectors and axis-aligned boxes.
- `Primitives` (`primitives.dfy`) holds mesh records, primitive records, and the specification of `CreatePrimitiveInfos` and of the leaf index output.
- `Sah` (`sah.dfy`) holds bucketing, bucket costs, the argmin loop and the stable partition.
- `Nodes` (`nodes.dfy`) holds BVH nodes and the `WellBuilt` specification of what `RecursiveBuild` produces.
- `SplitDecision` (`split_decision.dfy`) holds `Decide`, the decision `RecursiveBuild` takes for a range as a function of its records, and the order in which nodes are registered.
- `Builder` (`builder.dfy`) holds the imperative `BVHBuilder` class.
- `Lists` (`lists.dfy`) holds .NET `List.IndexOf` and `List.Remove`.
- `Materials` (`materials.dfy`) holds the texture lists and `PathTracingMaterial`.
- `Scene` (`scene.dfy`) holds the object registry, the flattening and the sample counter.

The builder, the registry and the material are classes whose methods update fields in place. Their results are tied to pure specification functions (`AllPrimitives`, `FillBuckets`, `LeftPart`/`RightPart`, `TriangleIndices`, `FlatVertices`/`FlatIndices`/`MeshObjectsOf`, `WithTexture`/`RemoveFirst`), and lemmas prove what the source promises about those functions.

`WellBuilt` specifies the tree that the builder returns.
- Every node's box is the union of its primitives' boxes.
- Leaves are exactly the cases the source allows.
- An inner node's axis is the widest centroid axis, and its children are built over a split of its range that the chosen strategy allows.
- Each leaf's first-offset points at its own triangles in the ordered index list.

`Decide` pins down which of the allowed splits the builder takes: the range's new order and the first child's share, with the SAH's bucket the first cheapest candidate. `BuiltAsDecided` ties the whole returned tree to it, level by level: every node is a leaf where `Decide` keeps its records together, and otherwise an inner node whose first child holds exactly the decided first part, with both children built as decided over their parts. `BuiltOrder` is the order the records are left in: unchanged at a leaf, so a leaf's mesh is the first record's on entry and its indices come in entry order; at a split, the built orders of the two decided parts, one after the other. Every inner node registered names children registered after the subtree started and before the node itself.

## Model

| member | source | states |
|---|---|---|
| Geometry.Union | Assets/Scripts/BVHBuilder.cs:23-29 | the union of two boxes contains both boxes |
| Geometry.UnionIsLeast | Assets/Scripts/BVHBuilder.cs:23-29 | every box containing both arguments contains their union, so the union is the smallest enclosing box |
| Geometry.UnionLaws | Assets/Scripts/BVHBuilder.cs:23-29 | box union is commutative and idempotent |
| Geometry.UnionPoint | Assets/Scripts/BVHBuilder.cs:30-36 | growing a box by a point gives a box containing both the old box and the point |
| Geometry.UnionPointIsLeast | Assets/Scripts/BVHBuilder.cs:30-36 | every box containing the old box and the point contains the grown box |
| Geometry.Init | Assets/Scripts/BVHBuilder.cs:38-42 | updating the box's own corners with a point yields the same box as the point union |
| Geometry.OffsetScales | Assets/Scripts/BVHBuilder.cs:44-52 | on an axis with positive extent, the relative offset times the extent is the point's distance from the minimum; on a flat axis the offset is that distance itself |
| Geometry.OffsetInUnit | Assets/Scripts/BVHBuilder.cs:44-52 | for a point inside a box with positive extent on an axis, the relative offset lies in [0, 1]; it is 0 at the minimum and 1 at the maximum |
| Geometry.MaximumExtent | Assets/Scripts/BVHBuilder.cs:54-62 | the returned axis has the largest extent; ties go to the later axis (z over y over x) |
| Geometry.SurfaceArea | Assets/Scripts/BVHBuilder.cs:63-71 | a proper box has non-negative surface area |
| Geometry.SurfaceAreaZero | Assets/Scripts/BVHBuilder.cs:63-71 | a proper box has zero area exactly when two of its three extents are zero |
| Primitives.TriangleBox | Assets/Scripts/BVHBuilder.cs:183-187 | a triangle's box is proper and contains all three corners |
| Primitives.Center | Assets/Scripts/BVHBuilder.cs:193 | the centre is the midpoint of the box on every axis and lies inside a proper box |
| Primitives.MakePrimitive | Assets/Scripts/BVHBuilder.cs:176-195 | the record for triangle i of a mesh points at index `IndexOffset + 3i`, names that mesh, has valid indices, and has a proper box containing its centre |
| Primitives.MeshPrimitives | Assets/Scripts/BVHBuilder.cs:174-197 | one mesh contributes one record per triangle |
| Primitives.AllPrimitivesAt | Assets/Scripts/BVHBuilder.cs:171-198 | the records come mesh by mesh, triangle by triangle: triangle i of mesh m sits at position (triangles of earlier meshes) + i |
| Primitives.AllPrimitivesLength | Assets/Scripts/BVHBuilder.cs:171-198 | there is one record per triangle of all meshes |
| Primitives.AllPrimitivesIndicesValid | Assets/Scripts/BVHBuilder.cs:171-198 | every record's three index slots lie inside the index list |
| Primitives.BoundsOfIsLeast | Assets/Scripts/BVHBuilder.cs:235-237 | the bounds of a range contain every primitive's box and are contained in every box that does |
| Primitives.CentroidBoundsOfIsLeast | Assets/Scripts/BVHBuilder.cs:256-262 | the centroid bounds contain every centre and are contained in every box that does |
| Primitives.BoundsOfPermutation | Assets/Scripts/BVHBuilder.cs:235-262 | reordering a range does not change its bounds or its centroid bounds |
| Primitives.BoundsOfAppend | Assets/Scripts/BVHBuilder.cs:235-237 | the bounds of two adjacent ranges are the union of their bounds |
| Primitives.CentroidExtremes | Assets/Scripts/BVHBuilder.cs:256-262 | on every axis some primitive's centre attains the minimum and some attains the maximum of the centroid bounds |
| Primitives.AllSameMeshStep | Assets/Scripts/BVHBuilder.cs:296-301 | the running same-mesh flag stays true exactly while every primitive so far has the first primitive's mesh |
| Primitives.TriangleIndices | Assets/Scripts/BVHBuilder.cs:244-250 | a leaf appends three indices per primitive |
| Primitives.TriangleIndicesAt | Assets/Scripts/BVHBuilder.cs:244-250 | slot 3k+j of a leaf's output is index `PrimIndex + j` of the k-th primitive |
| Primitives.TriangleIndicesAppend | Assets/Scripts/BVHBuilder.cs:244-250 | the output for two adjacent ranges is the output of the first followed by that of the second |
| Sah.TruncateBounds | Assets/Scripts/BVHBuilder.cs:303 | the `(int)` cast truncates toward zero: it rounds down for non-negative values and up for negative ones |
| Sah.ScaledTruncateInRange | Assets/Scripts/BVHBuilder.cs:303 | truncating k times a value in [0, 1] gives a number in [0, k]: 0 at 0 and k at 1 |
| Sah.BucketIndexInRange | Assets/Scripts/BVHBuilder.cs:303-304 | with the clamp of index `SAHBuckets` to `SAHBuckets - 1`, every centre inside the centroid bounds lands in a valid bucket; the minimum lands in the first bucket and the maximum in the last |
| Sah.CentroidsInGrid | Assets/Scripts/BVHBuilder.cs:299-304 | all centres of a range land in valid buckets |
| Sah.AddToBucket | Assets/Scripts/BVHBuilder.cs:306-311 | adding a primitive raises the count by one; an empty bucket takes the primitive's own box, and a non-empty bucket's box grows to keep its old box and the primitive's centre |
| Sah.FilledBucket | Assets/Scripts/BVHBuilder.cs:299-312 | bucket b counts the primitives whose centres land in it; with none it is the initial bucket; otherwise its box contains the first member's box and every later member's centre, and lies inside every box that does |
| Sah.FillBuckets | Assets/Scripts/BVHBuilder.cs:294-312 | there is one bucket per `SAHBuckets` |
| Sah.FillBucketsStep | Assets/Scripts/BVHBuilder.cs:299-312 | one more primitive updates only its own bucket |
| Sah.FillBucketsCounts | Assets/Scripts/BVHBuilder.cs:294-312 | every bucket counts exactly the primitives whose centres fall into it, and the counts add up to the range length |
| Sah.SumCountsAppend | Assets/Scripts/BVHBuilder.cs:319-331 | counts over adjacent bucket ranges add up |
| Sah.SplitCountsAddUp | Assets/Scripts/BVHBuilder.cs:319-331 | for every split plane, the left and right counts together are the total count |
| Sah.FoldBounds | Assets/Scripts/BVHBuilder.cs:318-331 | the box folded over a bucket range contains every bucket's box |
| Sah.FoldBoundsIsLeast | Assets/Scripts/BVHBuilder.cs:318-331 | every box that holds the origin and each bucket's box in the range contains the folded box, so the fold is the smallest such box |
| Sah.FoldBoundsHasOrigin | Assets/Scripts/BVHBuilder.cs:318-331 | because the fold starts from the all-zero box, the folded box always contains the origin |
| Sah.EvaluateCosts | Assets/Scripts/BVHBuilder.cs:315-333 | the cost array has `SAHBuckets - 1` entries, and entry i is 0.125 plus the left and right counts times their areas over the total area |
| Sah.FoldBucketRange | Assets/Scripts/BVHBuilder.cs:321-331 | the loop's box and count equal the fold and the count sum over the bucket range |
| Sah.FirstMinIndex | Assets/Scripts/BVHBuilder.cs:336-343 | the position returned holds a value no entry undercuts, and every earlier entry is strictly greater |
| Sah.MinCostSplitBucket | Assets/Scripts/BVHBuilder.cs:336-343 | the returned bucket holds the smallest cost, and it is the first bucket with that cost (`FirstMinIndex` of the costs) |
| Sah.Filter | Assets/Scripts/BVHBuilder.cs:213-220 | the left list is no longer than the input |
| Sah.Reject | Assets/Scripts/BVHBuilder.cs:213-220 | the right list is no longer than the input |
| Sah.PartitionStep | Assets/Scripts/BVHBuilder.cs:213-220 | each primitive is appended to exactly one side, by its bucket compared with the split bucket |
| Sah.FilterSplits | Assets/Scripts/BVHBuilder.cs:213-226 | the two sides together are a permutation of the input |
| Sah.FilterSatisfies | Assets/Scripts/BVHBuilder.cs:217-218 | every primitive on the left is in a bucket at or below the split |
| Sah.RejectFails | Assets/Scripts/BVHBuilder.cs:219-220 | every primitive on the right is in a bucket above the split |
| Sah.FilterAppend | Assets/Scripts/BVHBuilder.cs:213-220 | the left side of a concatenation is the concatenation of the left sides |
| Sah.RejectAppend | Assets/Scripts/BVHBuilder.cs:213-220 | the right side of a concatenation is the concatenation of the right sides |
| Sah.FilterKeeps | Assets/Scripts/BVHBuilder.cs:217-218 | every primitive that goes left appears on the left |
| Sah.RejectKeeps | Assets/Scripts/BVHBuilder.cs:219-220 | every primitive that goes right appears on the right |
| Sah.PartitionIsPermutation | Assets/Scripts/BVHBuilder.cs:208-229 | the left side followed by the right side is a permutation of the range, and each side holds only primitives of its kind |
| Sah.PartitionIsStable | Assets/Scripts/BVHBuilder.cs:213-220 | the partition keeps the input order within each side |
| Sah.ProperSplit | Assets/Scripts/BVHBuilder.cs:299-349 | for any split bucket below the last, with positive centroid extent, both sides are non-empty |
| Nodes.InitLeafNode | Assets/Scripts/BVHBuilder.cs:93-102 | a leaf gets the given offset, count, box and mesh, has no children, and keeps its split axis and child indices |
| Nodes.InitInnerNode | Assets/Scripts/BVHBuilder.cs:104-113 | an inner node gets the axis and the two children, has count 0, and has a box containing both children's boxes; the other fields stay |
| Nodes.CentroidBoundsProper | Assets/Scripts/BVHBuilder.cs:256-264 | centroid bounds are proper, so every extent is non-negative |
| Nodes.SplitChoiceReordered | Assets/Scripts/BVHBuilder.cs:377-378 | permuting within each child's range keeps the parent's split valid and keeps its bounds and centroid bounds |
| Nodes.WellBuiltCovers | Assets/Scripts/BVHBuilder.cs:231-387 | a built node's box is exactly the bounds of its primitives and contains each of them; it holds as many primitives as its range; it is a leaf exactly when its count is positive |
| Nodes.WellBuiltTotal | Assets/Scripts/BVHBuilder.cs:231-387 | the leaf counts of a built tree add up to the range length |
| Nodes.InnerWellBuilt | Assets/Scripts/BVHBuilder.cs:377-383 | two well-built children over a valid split, joined by `InitInnerNode`, give a well-built inner node |
| Nodes.ContiguousAppend | Assets/Scripts/BVHBuilder.cs:242-251 | leaves laid out one after another in the index list stay contiguous when concatenated |
| Nodes.LeavesTile | Assets/Scripts/BVHBuilder.cs:231-387 | a built tree's leaves, in order, tile the ordered index list from its start offset without gaps, three indices per primitive, and cover the whole range |
| Nodes.RegisteredInPrefix | Assets/Scripts/BVHBuilder.cs:201-206 | registering more nodes never unregisters earlier ones |
| SplitDecision.SahSplitBucketIsCheapest | Assets/Scripts/BVHBuilder.cs:294-350 | the SAH keeps the records together exactly when it prefers a leaf; otherwise its bucket costs less than a leaf, no candidate costs less, and every earlier candidate costs strictly more |
| SplitDecision.SahSplitChoice | Assets/Scripts/BVHBuilder.cs:345-349 | an SAH partition of more than four primitives is a permutation; it keeps bounds and centroid bounds, puts its split strictly inside, and satisfies the split specification |
| SplitDecision.BuiltOrderIsPermutation | Assets/Scripts/BVHBuilder.cs:231-387 | the order the builder leaves a range in is a reordering of its records |
| SplitDecision.EqualCountKeepsOrder | Assets/Scripts/BVHBuilder.cs:286-288 | under equal counts every split is at the middle of the unchanged order, so the built order is the order on entry |
| SplitDecision.DecideValid | Assets/Scripts/BVHBuilder.cs:255-375 | the decision is a leaf only where the source allows one; a split only when the centroids spread, into a reordering with the same boxes, at a valid split of the new order |
| SplitDecision.ChildrenBeforeJoin | Assets/Scripts/BVHBuilder.cs:377-382 | the first subtree's nodes, the second's, the two children and then the parent keep every child registered before its parent |
| Builder.IndicesValidReordered | Assets/Scripts/BVHBuilder.cs:221-226 | reordering records keeps their index slots valid |
| Builder.SahPartitioned | Assets/Scripts/BVHBuilder.cs:208-229 | splicing the partition into the record list leaves the rest unchanged, permutes the range, and yields a valid strictly interior split |
| Builder.SahEvaluated | Assets/Scripts/BVHBuilder.cs:314-346 | the costs, their first minimum and its comparison with the leaf cost give exactly the SAH's bucket, or a leaf preference when it keeps the records together |
| Builder.SplitAsChosen | Assets/Scripts/BVHBuilder.cs:231-387 | a range split where `Decide` chose, whose two parts were then built as decided, is built as decided for its records on entry, and its built order is the two parts' built orders, one after the other |
| Builder.ChildOrdersCompose | Assets/Scripts/BVHBuilder.cs:377-378 | building the first part and then the second leaves the range in the first part's built order followed by the second's |
| Builder.Decided | Assets/Scripts/BVHBuilder.cs:255-375 | putting a decision in place changes only the range, into a reordering of it, and gives a leaf the source allows or a valid split on the widest centroid axis |
| Builder.ChildRangesCompose | Assets/Scripts/BVHBuilder.cs:377-378 | two recursive calls over adjacent ranges leave everything outside the parent range unchanged and permute each half |
| Builder.ChildIndicesAppend | Assets/Scripts/BVHBuilder.cs:377-378 | the two children's index output together is the parent range's index output |
| Builder.ChildrenRegistered | Assets/Scripts/BVHBuilder.cs:377-382 | after both children are registered, the whole subtree is registered and earlier nodes are kept |
| Builder.ChildrenRegisteredBefore | Assets/Scripts/BVHBuilder.cs:377-382 | registering both children after their subtrees, and the parent after them, keeps children before their parent |
| Builder.ChildrenBuilt | Assets/Scripts/BVHBuilder.cs:377-383 | the inner node built from the two recursive calls is well built over the permuted range, with its indices and nodes appended |
| Builder.BVHBuilder.constructor | Assets/Scripts/BVHBuilder.cs:133-142 | the builder stores its inputs, sets the primitive count to a third of the index count, and holds the records of every triangle |
| Builder.BVHBuilder.CreatePrimitiveInfos | Assets/Scripts/BVHBuilder.cs:169-199 | the loop appends exactly the records of all meshes, in mesh and triangle order |
| Builder.BVHBuilder.AppendMeshPrimitives | Assets/Scripts/BVHBuilder.cs:173-197 | the inner loop appends the records of one mesh's triangles in order |
| Builder.BVHBuilder.RegisterNode | Assets/Scripts/BVHBuilder.cs:201-206 | the node is appended, and its index is the old node count |
| Builder.BVHBuilder.RangeBounds | Assets/Scripts/BVHBuilder.cs:235-237 | the loop computes the bounds of the range |
| Builder.BVHBuilder.RangeCentroidBounds | Assets/Scripts/BVHBuilder.cs:256-262 | the loop computes the centroid bounds of the range |
| Builder.BVHBuilder.AppendTriangleIndices | Assets/Scripts/BVHBuilder.cs:244-250 | the loop appends the triangle indices of the range's primitives in order |
| Builder.BVHBuilder.MakeLeaf | Assets/Scripts/BVHBuilder.cs:242-252 | the leaf covers the range, starts at the old length of the ordered index list, and is well built |
| Builder.BVHBuilder.FillBucketArray | Assets/Scripts/BVHBuilder.cs:294-312 | the bucket array equals the bucketing specification of the range, and the flag says whether all primitives share the first one's mesh |
| Builder.BVHBuilder.DropIntoBucket | Assets/Scripts/BVHBuilder.cs:306-311 | only bucket b changes, and it becomes that bucket with the primitive added |
| Builder.BVHBuilder.EvaluateSah | Assets/Scripts/BVHBuilder.cs:294-346 | a split is reported exactly when the SAH has a bucket, and the bucket reported is `SahSplitBucket`: the area is non-zero, it costs less than `SAHPrimCost` times the count, no plane costs less, and every earlier plane costs strictly more; otherwise the SAH prefers a leaf |
| Builder.BVHBuilder.PartitionPrimInfoByBucket | Assets/Scripts/BVHBuilder.cs:208-229 | the range is replaced by its left side followed by its right side, the rest of the list stays, and the returned mid is start plus the left count |
| Builder.BVHBuilder.RecursiveBuild | Assets/Scripts/BVHBuilder.cs:231-387 | the range is permuted in place, into exactly `BuiltOrder` of its records on entry; everything else is kept; the index list grows by exactly the range's triangle indices in the final order; the node is well built; it is inner exactly when `Decide` splits; the whole subtree is built as decided (`BuiltAsDecided`) over the range's records on entry, so below the root too each split is the SAH's first cheapest bucket or the midpoint fallback, and each same-mesh SAH leaf is a leaf; its subtree is registered after the old nodes, children before parents; under equal counts the records keep their order |
| Builder.BVHBuilder.ChooseSplit | Assets/Scripts/BVHBuilder.cs:255-375 | it takes `Decide`'s decision: a leaf the source allows with the range untouched, or the decided order in place of the range and the decided split, strictly inside and allowed by the strategy, on the widest centroid axis, which has positive extent; under equal counts or for at most four records the order is kept and the split is the midpoint |
| Builder.BVHBuilder.SpreadChooseSplit | Assets/Scripts/BVHBuilder.cs:283-370 | for spread centroids it takes `Decide`'s decision; under equal counts or for at most four records the order is kept and the split is the midpoint |
| Builder.BVHBuilder.SahChooseSplit | Assets/Scripts/BVHBuilder.cs:292-369 | the SAH branch takes `Decide`'s decision: the partition at the SAH's bucket, a leaf for a same-mesh range the SAH keeps together, or else the midpoint with the order kept; either a leaf or a valid interior split |
| Builder.BVHBuilder.SahPartition | Assets/Scripts/BVHBuilder.cs:346-350 | the range becomes its left side followed by its right side at the given bucket, mid is start plus the left count, and the split is a valid interior one |
| Builder.BVHBuilder.BuildChildren | Assets/Scripts/BVHBuilder.cs:377-383 | building both halves and joining them gives a well-built inner node over the range, with indices and nodes appended; the child indices are the positions `RegisterNode` returns, after both subtrees; the range ends up as the first part's built order followed by the second's, so the first child is well built over a reordering of exactly the first part's records; both children are built as decided over their parts as they were on entry |
| Builder.BVHBuilder.Build | Assets/Scripts/BVHBuilder.cs:389-394 | the records end up in exactly `BuiltOrder` of their order on entry, and the ordered index list is exactly their triangle indices in that order; the root is well built over all primitives, built as decided over the records on entry, and is the last registered node; every new inner node names children registered before it; under equal counts the records keep their order |
| Lists.IndexOf | Assets/Scripts/PathTracingMaterial.cs:138 | the result is -1 exactly when the element is absent; otherwise it is the element's first position |
| Lists.RemoveFirst | Assets/Scripts/PathTracer.cs:59 | removing an absent element leaves the list unchanged; removing a present one shortens the list by one |
| Lists.RemoveFirstAtIndexOf | Assets/Scripts/PathTracer.cs:59 | removal deletes exactly the element at its first position and keeps the others in order |
| Lists.RemoveFirstMultiset | Assets/Scripts/PathTracer.cs:59 | removal takes away one copy of the element and nothing else |
| Lists.RemoveFirstUndoesAppend | Assets/Scripts/PathTracer.cs:51-61 | unregistering an object just registered into a list that did not hold it restores the list |
| Materials.TextureList.constructor | Assets/Scripts/PathTracingMaterial.cs:16-19 | a texture list starts empty |
| Materials.TextureRegistry.constructor | Assets/Scripts/PathTracingMaterial.cs:16-19 | the four shared lists start empty and are distinct objects |
| Materials.RegistrationIdempotent | Assets/Scripts/PathTracingMaterial.cs:132-139 | registering a texture twice changes nothing more than once; the returned index names the texture, and it is the old length when the texture is new |
| Materials.PathTracingMaterial.constructor | Assets/Scripts/PathTracingMaterial.cs:21-34 | a new material has no textures, all texture IDs -1, an IOR of 1.459 and zero colours |
| Materials.PathTracingMaterial.RegisterTextureToList | Assets/Scripts/PathTracingMaterial.cs:132-139 | the texture is appended only if absent, and the result is its first index in the list |
| Materials.PathTracingMaterial.RegisterSlot | Assets/Scripts/PathTracingMaterial.cs:118-129 | a set texture is registered and its ID becomes its index; an unset one leaves list and ID alone |
| Materials.PathTracingMaterial.RegisterTextures | Assets/Scripts/PathTracingMaterial.cs:114-130 | each of the four set textures is registered in its own list with its ID set to its index, and every set texture's ID then names it in its list |
| Materials.PathTracingMaterial.UnregisterSlot | Assets/Scripts/PathTracingMaterial.cs:142-153 | a set texture is removed from its list and its ID becomes -1; an unset one leaves list and ID alone |
| Materials.PathTracingMaterial.UnregisterTextures | Assets/Scripts/PathTracingMaterial.cs:141-160 | albedo, metal/roughness and normal textures are removed and their IDs reset; the emission ID is reset but the emission texture is appended to its list again |
| Materials.PathTracingMaterial.ToPtMaterialBufferObject | Assets/Scripts/PathTracingMaterial.cs:162-180 | the GPU record copies the colours' RGB parts, the scalars and all four texture IDs |
| Materials.RegisterThenUnregister | Assets/Scripts/PathTracingMaterial.cs:132-158 | for a texture not yet registered, register then remove restores the list; the emission path instead leaves two extra copies behind |
| Scene.Shifted | Assets/Scripts/PathTracer.cs:96 | every index is shifted by the vertex offset, and the length is kept |
| Scene.VerticesPrefix | Assets/Scripts/PathTracer.cs:83-91 | the flattened vertices of the first k objects are a prefix of the flattened vertices of all objects |
| Scene.IndicesPrefix | Assets/Scripts/PathTracer.cs:83-96 | the flattened indices of the first k objects are a prefix of the flattened indices of all objects |
| Scene.MeshesPrefix | Assets/Scripts/PathTracer.cs:83-119 | there is one mesh record per object, and the records of the first k objects form a prefix |
| Scene.FlatStep | Assets/Scripts/PathTracer.cs:90-117 | one more object appends its vertices, its shifted indices, its material and its mesh record |
| Scene.VertexAt | Assets/Scripts/PathTracer.cs:90-91 | vertex j of object k sits at the vertex offset of object k plus j |
| Scene.IndexAt | Assets/Scripts/PathTracer.cs:94-96 | index j of object k sits at the index offset of object k plus j, shifted by the vertex offset |
| Scene.IndicesStillResolve | Assets/Scripts/PathTracer.cs:90-96 | after flattening, every shifted index names the same vertex it named in its own mesh |
| Scene.MeshObjectAt | Assets/Scripts/PathTracer.cs:110-117 | mesh record k has the object's matrix, the index offset of object k, a third of its index count as triangles, and the material slot `first + k` |
| Scene.BuilderMeshes | Assets/Scripts/BVHBuilder.cs:133 | the scene's mesh records convert one for one into the builder's mesh input |
| Scene.IndicesEnd | Assets/Scripts/PathTracer.cs:94-96 | object k's indices end within the flattened index list |
| Scene.MeshRecordValid | Assets/Scripts/PathTracer.cs:110-117 | every mesh record's triangles lie inside the flattened index list and name flattened vertices |
| Scene.FlatSceneValid | Assets/Scripts/PathTracer.cs:69-119 | the flattened scene would meet the builder's input requirement: every mesh's triangles lie inside the index list and name existing vertices |
| Scene.SceneRegistry.constructor | Assets/Scripts/PathTracer.cs:7-29 | the shared lists start empty and no rebuild is pending |
| Scene.SceneRegistry.RegisterObject | Assets/Scripts/PathTracer.cs:51-55 | the object is appended and a rebuild becomes pending |
| Scene.SceneRegistry.UnregisterObject | Assets/Scripts/PathTracer.cs:57-61 | the object's first occurrence is removed and a rebuild becomes pending |
| Scene.SceneRegistry.SetMeshObjectsNeedRebuilding | Assets/Scripts/PathTracer.cs:63-67 | a rebuild becomes pending |
| Scene.PathTracer.constructor | Assets/Scripts/PathTracer.cs:41-48 | the sample counter starts at 0 |
| Scene.PathTracer.RebuildMeshObjectBuffers | Assets/Scripts/PathTracer.cs:69-119 | with no rebuild pending nothing changes; otherwise the flag clears, the counter resets, and the lists become the flattened vertices, indices and mesh records of the registered objects, with the materials appended after the old ones |
| Scene.PathTracer.AppendObjectBuffers | Assets/Scripts/PathTracer.cs:90-117 | one loop iteration appends the object's vertices, its indices shifted by the old vertex count, its material, and a mesh record at the old index count and material count |
| Scene.RebuildStep | Assets/Scripts/PathTracer.cs:83-119 | one iteration carries the loop invariant from the first k objects to the first k + 1 |
| Scene.MaterialsLength | Assets/Scripts/PathTracer.cs:99-106 | the loop adds one material per object |
| Scene.PathTracer.Update | Assets/Scripts/PathTracer.cs:160-167 | a moved camera resets the counter and clears the moved flag; otherwise nothing changes |
| Scene.PathTracer.Render | Assets/Scripts/PathTracer.cs:198-229 | the counter advances by one unless it is at or above `MaxSamples`, where it stays; from at most the cap it stays at most the cap |
| Scene.PathTracer.OnRenderImage | Assets/Scripts/PathTracer.cs:192-196 | after a rebuild the counter is the first frame's; otherwise it advances from its old value; after a rebuild or from at most the cap it ends at most the cap |
| Scene.SamplesSaturate | Assets/Scripts/PathTracer.cs:201-228 | from at most the cap, n frames leave the counter at the smaller of old + n and `MaxSamples` |
| Scene.SamplesStayAboveCap | Assets/Scripts/PathTracer.cs:201 | a counter above a lowered cap is left where it is by any number of frames |

## Left out

- Floating point: coordinates, areas and costs are exact reals rather than IEEE single precision, so rounding is not modelled.
- Division by a zero surface area: in the source this makes every SAH cost infinite or NaN, and no cost compares below the leaf cost. The model skips the cost evaluation in that case and takes the same not-cheaper branch.
- `Vector4FromVector3` and the matrix-times-vector product are modelled as exact arithmetic that drops the w component.
- `BVHNode` is a class in the source. The model treats it as a value. It relies on the source never mutating a node after `InitInnerNode` other than setting its two child indices, which happens before the node is shared.
- The static lists of `PathTracer` and `PathTracingMaterial` are modelled as fields of one shared registry object.
- `PathTracingObject` is modelled by the data the flattening loop reads. This covers the mesh's vertices and indices, which the source fetches with `GetComponent`. It also covers the material fields `Type`, `Albedo`, `Specular` and `Emissive` read at `Assets/Scripts/PathTracer.cs:101-104`; these are not declared in `Assets/Scripts/PathTracingObject.cs`.
- Builder.BVHBuilder.Build requires `0 < nPrims <= |primitiveInfos|`. The source indexes the first record unconditionally, so an empty scene is a crash there. The source also assumes every index triple belongs to some mesh.
- Builder.BVHBuilder.RecursiveBuild requires `SAHBuckets >= 2` under the SAH strategy. Fewer buckets make the source's cost array empty and `cost[0]` throw.
- Builder.BVHBuilder.constructor requires that the mesh records name valid triangles. The source indexes the vertex and index lists without checks. `PathTracer.cs` does not call the builder; `Scene.FlatSceneValid` proves that its flattened scene would meet this requirement.
- Scene.FlatSceneValid assumes that each object's own indices name its own vertices, as a well-formed Unity mesh guarantees.
- Scene.Shifted: index shifting uses unbounded integers; 32-bit overflow of `index + firstVertex` is not modelled.
- `GetVectorComponent`'s default of negative infinity is unreachable, because `Axis` only holds 0 to 2.
- `SAHBundleCost` is carried in the options but, as in the source, never read.
- Builder.BVHBuilder.GetBvhNodes, Builder.BVHBuilder.GetRootNodeIndex and Builder.BVHBuilder.GetOrderedIndices return their field and carry no contract.
- Nothing of the GPU or engine side is modelled:
  - compute buffers (`CreateComputeBuffer`, `SetComputeBuffer`) and shader parameters;
  - render textures, `Dispatch` and `Blit`, and `Awake`;
  - `Debug.Log` and `Random`.
- `FromUnityMaterial` and `_CreateTexArrays` build data from Unity assets and are not part of this model. The `PathTracingMaterial` finalizer only calls `UnregisterTextures`, and finalization timing is not modelled.
- Unity's overloaded truthiness of destroyed objects is modelled as a plain null test.
