# Verification of gz-common's algorithms

This project models the algorithms of gz-common, a robotics utility library, and proves what they promise. The models
follow the C++ code branch by branch. Code that changes state in place is written here as classes and methods with
loops; each is proved against a specification function, and the theorems are lemmas about those functions. `double`
and `float` values are exact reals.

| file | what it is about |
|---|---|
| `Sequences.dfy`, `Chains.dfy`, `Vectors.dfy` | sequences, directed edges that cancel in pairs, and the vector identities behind volume and centroid |
| `SubMesh.dfy`, `Mesh.dfy`, `Tetrahedron.dfy` | volume and centroid of closed meshes |
| `Tube.dfy`, `TubeVolume.dfy` | the closed index buffer of a tube, and the volume of the tube |
| `Neighbors.dfy` | the ordered map that finds coincident vertices, and vertex normals |
| `Collada.dfy`, `Unify.dfy`, `VertexSharing.dfy`, `Loader.dfy` | COLLADA sources, index unification, triangles and polygons |
| `EarClip.dfy`, `ClippedEar.dfy`, `ConvexFace.dfy`, `FacePlane.dfy` | ear clipping of OBJ faces, which triangles it cuts off, what it does on convex faces, and the plane in which it is done |
| `Sha1.dfy`, `Sha1Example.dfy` | SHA-1 as FIPS 180-4 defines it and as it is computed byte by byte, and one digest worked out |
| `WorkerPool.dfy` | the worker pool as a step system over one mutex and two condition variables |
| `Csv.dfy`, `CsvRoundTrip.dfy`, `CsvAccepted.dfy` | the CSV reader, exactly what it can return, and exactly which bytes it accepts |
| `SvgPaths.dfy`, `SvgDrawing.dfy`, `Stitch.dfy` | SVG path commands, where they draw, and stitching segments into polylines |
| `Skeleton.dfy` | skeleton trees, their poses and their numbering |
| `Uri.dfy` | the tokenizer, URI paths and URI queries |
| `Base64.dfy` | base 64 as section 4 of RFC 4648 defines it, encoder and decoder |
| `Animation.dfy` | key frames and trajectories |

`dafny verify dfyconfig.toml` checks everything.

## What is proved

* **Meshes.** Moving any triangle list changes its signed volume by the sum of a flux over its directed edges, and its
  moment likewise. On a closed list the edges cancel. So the volume stays, and the centroid follows a translation if and
  only if the volume is not below the threshold of 1e-16 (or nothing is moved). For a whole mesh the same holds if and
  only if, in addition, no submesh has a volume below the threshold but not zero. The index buffer of a tube is closed
  for every ring and segment count when it has end caps, and, when it has none, once its last column is taken as its
  first. Its signed volume is its height times the area of its cross-section, whatever that is.
* **Normals.** The sums that the ordered map gives are those of a quadratic scan: at each vertex the normals of the
  faces around it, each as often as the vertex is found at one of their corners.
* **COLLADA.** Every emitted index stands for exactly the position, normal and texture coordinates that its tuple
  named. A polygon list means the same as the triangle list of its fans. Its guard against normal indices out of range
  keeps one normal a vertex if and only if there are none; positions and texture coordinates are kept in any case. Two
  corners share a vertex if and only if they name one position and no corner at it, from the first to the second, names
  another normal or other texture coordinates: only the latest record of a position is kept.
* **Ear clipping.** At every step the triangles and the polygon that is left make up the face, up to edges that cancel;
  no clipped triangle is flipped; the loop ends. On the way, in every state, a triangle is cut off if and only if it
  turns as the face does and no corner at any other position of the polygon is inside by the parity of crossings, and
  so none is strictly within it. The loop leaves a polygon that has an ear if and only if the face has five corners or
  more, its only ear is the one tried last, and there is an ear once that is clipped; a concrete face does. A strictly
  convex face is cut up completely, since the parity of crossings tells inside from outside. The axes are chosen so
  that the deciding corner stays as large as possible, unless the x and z components of its normal tie; every face on a
  plane x + z = c or x - z = c falls under that exception and is cut into a fan whatever its shape.
* **SHA-1.** For every byte string the streaming computation yields the digest of FIPS 180-4 and succeeds if and only
  if the bit count fits in 64 bits. The constants are the square roots that the standard names, and the digest of "abc"
  is the one that it gives.
* **Worker pool.** Over all interleavings: orders start in order and run once, work before callback; no wakeup is lost;
  the workers finish. A call that returns true has waited for everything added before it, unless it is the spurious
  return of its own untimed wait, which has no predicate around it, with an earlier order unfinished: those steps, and
  no others, return true too early. So a caller can rely on a true result if and only if it gave a timeout. With one a
  call returns true if and only if every order added so far has finished and the pool is not being shut down.
* **CSV.** A row is read from any position of any bytes if and only if a written row and its terminator are there, or,
  at the end, a written row that ends in a plain field. The tables that the reader can return are exactly those whose
  fields hold no delimiter or terminator or do not start with a quote; they are read back exactly when every row is
  terminated. That holds for dialects with three different characters if and only if the quote is ASCII and the
  terminator is not the byte 255. A quoted text is read back if and only if it is not empty and does not start with a
  quote. A last row without a terminator is lost if and only if it ends in a quoted field or is nothing at all.
* **SVG.** Expanding repeated commands does not change what is drawn, and the expansion can be drawn whenever they can.
  Each command draws where it should: absolute ones at their numbers, relative ones at those counted from the point
  before. Stitching uses each segment exactly once, and each line starts with the first one that is left.
* **Skeletons.** Posed means that every pose is the product of the transforms on the path from the root. Setting a
  transform, setting a pose (if and only if the parent's inverse restores it) and scaling pose the tree again, and the
  node map is the preorder numbering, followed by what an earlier root leaves in it.
* **URIs.** Parsing what is printed gives the same query entries and the same path. The printed form is valid except
  for strings with two blanks or more in front of a query, and paths that lose the slash in front of a drive. Query
  entries are printed with the delimiter between them if and only if no empty one is in front of others.
* **Base 64.** The encoder yields what RFC 4648 defines, and decoding undoes it. Encoding what was decoded gives a text
  back if and only if it is canonical.
* **Animation.** Key frames stay sorted; the frames and the parameter found for a time reproduce that time, and values
  in between lie between theirs. A trajectory meets each waypoint at its time; the distance covered never shrinks, stays
  between zero and the total, is exact at every waypoint, and grows in proportion to the time between them.

Where the code and its documentation disagree, the code is followed: the CSV reader takes a doubled quote as text even
at the start of a field, so that `""` is a field holding one quote, not an empty one as in rule 7 of section 2 of
RFC 4180; a quoted empty field cannot be written at all.

## Model

| member | source | states |
|---|---|---|
| `Chains.ClosedIffNetZero` | graphics/src/SubMesh.cc:761-765 | A list of directed edges equals its reversal as a multiset exactly when every edge occurs as often as its reverse: the cancellation that the volume relies on |
| `Chains.SameChainSameSum` | graphics/src/SubMesh.cc:761-765 | Edge lists that agree after cancelling give the same sum of any antisymmetric edge quantity |
| `Chains.ClosedSumsToZero` | graphics/src/SubMesh.cc:761-765 | Around a closed edge list every antisymmetric quantity sums to zero |
| `SubMeshes.SignedVolumeShift` | graphics/src/SubMesh.cc:746-784 | Moving any triangle list, closed or not, changes its signed volume by the sum of a flux over its directed edges |
| `SubMeshes.ClosedVolumeShift` | graphics/src/SubMesh.cc:761-765 | On a closed triangle list the signed volume does not depend on where the mesh is |
| `SubMeshes.ClosedCenterShift` | graphics/src/SubMesh.cc:801-822 | On a closed list the first moment moves by the volume times the translation |
| `SubMeshes.CentroidFollowsTranslation` | graphics/src/SubMesh.cc:787-823 | The centroid of a closed list moves by exactly t if and only if the volume is at least 1e-16 in magnitude or t is zero |
| `SubMeshes.ClosedShapeMoves` | graphics/src/SubMesh.cc:727-823 | The same for every submesh, including those that have no volume: empty, not triangles, not a multiple of three, or with an index out of range |
| `SubMeshes.OthersHaveNone` | graphics/src/SubMesh.cc:746-823 | A submesh that is empty, of another primitive type, not a multiple of three or with an index out of range has volume 0 and its centroid at the origin |
| `Tetrahedra.TetrahedronIs` | graphics/src/SubMesh.cc:746-823 | The volume of any tetrahedron as a triangle list is a sixth of the determinant of its edges at a corner, and its centroid the mean of its corners, unless its volume is negligible |
| `SubMeshes.SubMesh.HasValidIndices` | graphics/src/SubMesh.cc:826-837 | True exactly when there are indices and all are in range |
| `SubMeshes.SubMesh.Volume` | graphics/src/SubMesh.cc:746-784 | The loop returns the magnitude of the sum of signed tetrahedra, and 0 where the code has no volume to give |
| `SubMeshes.SubMesh.Centroid` | graphics/src/SubMesh.cc:787-823 | The loop returns moment over volume, and the origin below the threshold or without a volume |
| `SubMeshes.SubMesh.Translate` | graphics/src/SubMesh.cc:727-731 | Moves every vertex once and nothing else |
| `Meshes.TotalVolumeMoves` | graphics/src/Mesh.cc:414-422 | The volume of a mesh of closed submeshes does not change when it is moved |
| `Meshes.TotalMomentMoves` | graphics/src/Mesh.cc:425-441 | Its weighted sum of centroids moves by t times the volume that is not negligible |
| `Meshes.NoNegligibleVolume` | graphics/src/Mesh.cc:425-441 | The negligible part is zero exactly when each submesh has no volume or at least the threshold |
| `Meshes.MeshCenterFollows` | graphics/src/Mesh.cc:425-441 | The centroid of such a mesh moves by t if and only if its volume is at least the threshold and no submesh has a volume below it but not zero |
| `Meshes.OneSubmesh` | graphics/src/Mesh.cc:414-441 | A mesh of one submesh has the volume and the centroid of that submesh |
| `Meshes.PartsAddUp` | graphics/src/Mesh.cc:414-441 | Volumes and weighted centroids of two meshes add up |
| `Meshes.CentroidsBalance` | graphics/src/Mesh.cc:425-441 | The centroid of two meshes together is where their centroids balance, each with the weight of its volume |
| `Meshes.Mesh.AddSubMesh` | graphics/src/Mesh.cc:179-184 | Adds a copy, an object of its own, with the same shape |
| `Meshes.Mesh.Volume` | graphics/src/Mesh.cc:414-422 | The loop sums the volumes of the submeshes |
| `Meshes.Mesh.Centroid` | graphics/src/Mesh.cc:425-441 | The loop takes the mean of their centroids by volume |
| `Meshes.Mesh.Translate` | graphics/src/Mesh.cc:374-378 | Moves every submesh exactly once |
| `Tubes.TubeClosed` | graphics/src/MeshManager.cc:1394-1529 | For all rings and segments the index list is closed: outer wall, inner wall, both rims and both end caps cancel; without caps if the last column is the first |
| `Tubes.TubeInRange` | graphics/src/MeshManager.cc:1394-1529 | Every index is below the number of vertices |
| `Tubes.TubeVolumeShift` | graphics/src/MeshManager.cc:1394-1529 | The volume of a tube does not depend on where it is, with caps for any vertices, on a full circle if the seam meets |
| `Tubes.CreateTube` | graphics/src/MeshManager.cc:1376-1531 | The nested loops with their running index yield that list, ring by ring, with the clamped counts; it is in range and, with caps, closed |
| `Tubes.CreateOuterWall` | graphics/src/MeshManager.cc:1394-1460 | The first pair of loops: outer wall, top rim and bottom rim |
| `Tubes.CreateInnerWall` | graphics/src/MeshManager.cc:1462-1504 | The second pair of loops: the inner wall |
| `Tubes.CreatedTubeVolume` | graphics/src/MeshManager.cc:1369-1533 | The mesh that is created keeps its volume wherever it is moved |
| `TubeVolumes.TubeVolume` | graphics/src/MeshManager.cc:1394-1529 | For all rings, segments, heights and cross-sections: the signed volume of the index list is the height times the area between the outer and the inner line, with caps in any case, and without them if the ends meet |
| `TubeVolumes.CreatedTubeIsUpright` | graphics/src/MeshManager.cc:1376-1531 | The same for the heights at which the loops put the rings |
| `Neighborhoods.BuildGroups` | graphics/src/SubMesh.cc:575-584 | The ordered map holds every entry of the index list once, under the X of its vertex |
| `Neighborhoods.FirstNear` | graphics/src/SubMesh.cc:597-606 | The search stops at the first group within epsilon if X is a key or the last group is within epsilon, and at the end otherwise |
| `Neighborhoods.Visit` | graphics/src/SubMesh.cc:594-615 | Visits exactly the entries that match, in order, if X is a key, no group is within epsilon, or the last one is; otherwise it visits none |
| `Neighborhoods.MatchesAreInRange` | graphics/src/SubMesh.cc:586-615 | The entries that match are those of the groups within epsilon that coincide with the point |
| `Neighborhoods.FilterPermutation` | graphics/src/SubMesh.cc:575-584 | So the map and a scan of the index list find the same entries the same number of times |
| `Neighborhoods.AddAllPermutation` | graphics/src/SubMesh.cc:654-658 | The order in which entries are visited does not matter for the sums |
| `Neighborhoods.SumsAreShares` | graphics/src/SubMesh.cc:625-660 | In closed form: a corner adds the normal of its face to a vertex once for each entry of the index list that names the vertex, if the vertex is there |
| `Neighborhoods.RecalculateNormals` | graphics/src/SubMesh.cc:625-666 | Each normal becomes the normalized sum over the corners of all faces, each adding the normal of its face as often as the vertex is found at it; other submeshes are left alone |
| `ColladaSources.LoadSource` | graphics/src/ColladaLoader.cc:1786-1802 | The loop of the three loaders: the items start at the multiples of the stride, each of them complete, and every repeated value, and no other, is mapped to its first occurrence |
| `ColladaSources.ResolveIsCanonical` | graphics/src/ColladaLoader.cc:1797-1801 | Resolved indices are equal exactly when the values they name are equal |
| `Unification.StepKeepsPlaces` | graphics/src/ColladaLoader.cc:2355-2563 | One tuple adds one index, at a vertex with its position and its texture coordinates; nothing before changes its meaning, and every set stays as long as the vertices |
| `Unification.UnifiedKeepsPlaces` | graphics/src/ColladaLoader.cc:2355-2563 | For every list of tuples, those with a normal index out of range included: one index each, in order, at a vertex with the position and every texture coordinate that the tuple named |
| `Unification.UnifiedKeepsMeaning` | graphics/src/ColladaLoader.cc:2738-2906 | For every list of tuples in range: one index each, in order, at a vertex with the position, the normal and every texture coordinate that the tuple named; normals and texture coordinates are one for each vertex |
| `VertexSharing.SharesExactly` | graphics/src/ColladaLoader.cc:2738-2906 | For every list of tuples in range: two corners get one index if and only if they name one position, and no corner at it in between differs from the second in normal or texture coordinates, nor does the first |
| `Unification.NormalsAlignedExactly` | graphics/src/ColladaLoader.cc:2519-2528 | With the guard against normal indices out of range there is one normal a vertex if and only if no tuple names one out of range; otherwise there are fewer |
| `Unification.RecordedTexcoordFound` | graphics/src/ColladaLoader.cc:499-508 | Looking up a set in a record gives the index recorded for that set |
| `Loaders.Builder.FindShared` | graphics/src/ColladaLoader.cc:2766-2826 | Finds the first record with the same normal and texture coordinates, after resolving duplicates |
| `Loaders.Builder.AddNewVertex` | graphics/src/ColladaLoader.cc:2470-2557 | Appends a vertex with its attributes, a normal only if its index is in range, and replaces the record of its position |
| `Loaders.Builder.AddCorner` | graphics/src/ColladaLoader.cc:2743-2905 | One corner: shares a vertex or appends one and replaces the record of its position |
| `Loaders.Builder.LoadTriangles` | graphics/src/ColladaLoader.cc:2738-2906 | The loop over the index list unifies every complete tuple and skips an incomplete last one |
| `Loaders.FansCount` | graphics/src/ColladaLoader.cc:2355-2387 | The polygons that fit give 3 * sum(max(n, 2) - 2) corners |
| `Loaders.FanTriangle` | graphics/src/ColladaLoader.cc:2372-2387 | Triangle k - 2 of a polygon has exactly the corners 0, k - 1 and k |
| `Loaders.TupleAt` | graphics/src/ColladaLoader.cc:2738-2741 | Tuple k of the index list holds the numbers from k times the size on |
| `Loaders.FittingExactly` | graphics/src/ColladaLoader.cc:2355-2387 | How many polygons are loaded: all up to the first whose corners do not fit in the index list |
| `Loaders.PolygonTriangle` | graphics/src/ColladaLoader.cc:2372-2387 | Where each triangle of each polygon comes out, and which corners it has |
| `Loaders.Builder.LoadPolylist` | graphics/src/ColladaLoader.cc:2355-2563 | The loops emit the fans of all polygons up to the first that does not fit; normal indices may be out of range |
| `Loaders.PolylistIsFanTriangles` | graphics/src/ColladaLoader.cc:2355-2563 | Loading polygons is the same as loading the triangle list of their fans |
| `EarClipping.ClipKeepsChain` | graphics/src/tiny_obj_loader.h:1278-1285 | Cutting off one corner takes exactly one triangle off the boundary, up to cancelling edges |
| `EarClipping.TriangulationConserves` | graphics/src/tiny_obj_loader.h:1175-1312 | Triangles and left-over polygon have the boundary of the face; n - 2 triangles if nothing is left, else one for each corner lost |
| `EarClipping.AreasAddUp` | graphics/src/tiny_obj_loader.h:1154-1312 | The signed areas of the triangles and of what is left sum to the area of the face |
| `EarClipping.ClippedTrianglesTurn` | graphics/src/tiny_obj_loader.h:1215-1219 | Every triangle that is clipped turns the way the face does, so that areas are not gained by flipped ones |
| `EarClipping.TriangleArea` | graphics/src/tiny_obj_loader.h:1215-1219 | The cross product of the ear test is twice the signed area of its triangle |
| `EarClipping.GivesUpWithoutEars` | graphics/src/tiny_obj_loader.h:1186-1200 | The loop stops only on a polygon without ears, or when the only ear of the whole face is found at its last attempt |
| `EarClipping.OnlyLastEndsTheLoop` | graphics/src/tiny_obj_loader.h:1186-1200 | A face of five corners or more whose only ear is found at the last attempt loses that ear and nothing more |
| `EarClipping.GivesUpOnEarExactly` | graphics/src/tiny_obj_loader.h:1186-1200 | For every face: an ear is left behind if and only if the face has five corners or more, its only ear is the one tried last, and there is an ear once that is clipped |
| `EarClipping.PentagonIsLeftOver` | graphics/src/tiny_obj_loader.h:1186-1200 | A concrete face that meets this condition: four corners are left although one is an ear |
| `EarClipping.ComputeArea` | graphics/src/tiny_obj_loader.h:1154-1172 | The loop computes the signed area |
| `EarClipping.TestEar` | graphics/src/tiny_obj_loader.h:1202-1254 | The corner turns the way the face does and no other corner is in its triangle |
| `ClippedEars.CutsOffExactly` | graphics/src/tiny_obj_loader.h:1186-1285 | In every state on the way: a pass cuts off the triangle at the corner that it tries if and only if that turns the way the face does and no corner at any other position of the polygon is inside by the parity of crossings; otherwise the next corner is tried |
| `ClippedEars.ClippedTriangleIsFree` | graphics/src/tiny_obj_loader.h:1215-1247 | When a triangle is cut off no corner at any other position of the polygon is strictly within it |
| `ClippedEars.ClearCornerIsClipped` | graphics/src/tiny_obj_loader.h:1215-1285 | A triangle that turns the way the face does is cut off when every other corner is strictly beyond one of its edges |
| `EarClipping.RemoveAt` | graphics/src/tiny_obj_loader.h:1278-1285 | The loop that moves the later corners down removes exactly one |
| `EarClipping.Pass` | graphics/src/tiny_obj_loader.h:1187-1285 | One pass with its counters, in place on the array of corners |
| `EarClipping.Triangulate` | graphics/src/tiny_obj_loader.h:1154-1312 | The loop ends, and emits the triangles of the specification with three vertices each |
| `ConvexFaces.CrossingIsSide` | graphics/src/tiny_obj_loader.h:1070-1073 | An edge counts as crossed exactly when it goes up with the point on its left or down with the point on its right |
| `ConvexFaces.InsideMeansWithin` | graphics/src/tiny_obj_loader.h:1066-1077 | The parity of crossings: a point strictly within the three edges of a triangle is inside, one strictly beyond an edge is not |
| `ConvexFaces.ConvexFaceIsCutUp` | graphics/src/tiny_obj_loader.h:1154-1312 | A strictly convex face of either orientation is cut up completely, into n - 2 triangles that all turn as it does |
| `FacePlanes.ChooseAxes` | graphics/src/tiny_obj_loader.h:1108-1152 | The first corner with a normal above epsilon decides; corners without coordinates are skipped |
| `FacePlanes.FirstDecides` | graphics/src/tiny_obj_loader.h:1108-1152 | The first corner whose normal exceeds epsilon decides on the plane, and without one it is that of Y and Z |
| `FacePlanes.ProjectionKeepsCorner` | graphics/src/tiny_obj_loader.h:1139-1150 | The chosen axes keep the largest component of the deciding normal if and only if x and z do not tie in front of y, and collapse the corner if and only if they tie and y is zero |
| `FacePlanes.SlantedFaceIsFanned` | graphics/src/tiny_obj_loader.h:1108-1312 | Every face on a plane x + z = c or x - z = c is seen edge on, has area zero, and is cut into the fan of its first corner whatever its shape |
| `FacePlanes.TriangulateFace` | graphics/src/tiny_obj_loader.h:1108-1312 | One face with the axes it chooses |
| `Sha1Spec.LeastPadding` | src/Util.cc:208-228 | The zeros appended are the least number that section 5.1.1 of FIPS 180-4 allows, counted in bits |
| `Sha1Streams.SameFunction` | src/Util.cc:134-156 | The Boolean functions in the code are those of section 4.1.1 |
| `Sha1Streams.SameRotation` | src/Util.cc:121-124 | The rotation macro is the rotation of the standard |
| `Sha1Spec.ConstantsAreRoots` | src/Util.cc:136-155 | Each of the four constants is the square root of 2, 3, 5 or 10 to 30 binary places, rounded down |
| `Sha1Spec.InitialCounts` | src/Util.cc:178 | The initial value counts its hexadecimal digits up from 0 to F and down, and then down and up |
| `Sha1Example.DigestOfAbc` | src/Util.cc:108-250 | The digest of the three bytes of "abc" is that of the standard, A9993E36 4706816A BA3E2571 7850C26C 9CD0D89D: all 80 rounds, worked out |
| `Sha1Streams.ScheduleWords` | src/Util.cc:110-124 | The 80 words are the message schedule of section 6.1.2 |
| `Sha1Streams.CompressInto` | src/Util.cc:126-170 | 80 rounds in place and the final additions are the compression of section 6.1.2 |
| `Sha1Streams.LengthBytes` | src/Util.cc:230-247 | The eight bytes taken from the two counters are the 64-bit length, most significant first |
| `Sha1Streams.Sha1.PutByte` | src/Util.cc:104-172 | The state stands for the bytes fed: full blocks are in the hash, the rest is in the buffer |
| `Sha1Streams.Sha1.CountByte` | src/Util.cc:187-205 | 2^32 * high + low grows by 8, and fails exactly when it would reach 2^64 |
| `Sha1Streams.Sha1.Feed` | src/Util.cc:183-206 | Feeding succeeds exactly when the bit count fits, and then stands for the whole buffer |
| `Sha1Streams.Sha1.PutPadding` | src/Util.cc:208-228 | Both branches append 0x80 and the zeros of the standard |
| `Sha1Streams.Sha1.PutLength` | src/Util.cc:230-247 | The length completes the last block and leaves the buffer empty |
| `Sha1Streams.Sha1.Digest` | src/Util.cc:175-250 | For every byte string: true exactly when its bits number less than 2^64; then the FIPS 180-4 digest, an empty buffer, and a count of 8 times the bytes |
| `WorkerPools.NextKeepsCore` | src/WorkerPool.cc:79-191 | Every step, spurious returns included, keeps the order of starts, the partition of orders, the count of active ones, the log and the wakeups |
| `WorkerPools.RunKeepsCall` | src/WorkerPool.cc:163-192 | Over every run a call keeps the orders it waits for, unless its own wait returns spuriously |
| `WorkerPools.OrdersRunOnceInOrder` | src/WorkerPool.cc:79-118 | Over all runs: first in, first out; each order in exactly one of queued, running, finished; work at most once, then callback at most once; activeOrders counts the busy workers |
| `WorkerPools.WaitIsSafe` | src/WorkerPool.cc:163-192 | Over every run: a call that returned true has had every order added before it finished, work and callback, if it has a timeout or its own wait did not return spuriously; false only with a timeout or at shutdown |
| `WorkerPools.ReturnsTooEarlyExactly` | src/WorkerPool.cc:163-192 | A step returns true too early if and only if it is a spurious return of the untimed wait of that call, before shutdown, with an earlier order not finished |
| `WorkerPools.SafeExactlyWithTimeout` | src/WorkerPool.cc:176-191 | A true result can be relied on over all runs if and only if the call was given a timeout |
| `WorkerPools.ReturnsExactly` | src/WorkerPool.cc:163-192 | Over every run: at each of its own steps a call with a timeout returns true if and only if the pool is not being shut down and every order added so far has finished, one without if and only if it is not being shut down; when it returns at all; and it returns in no other step |
| `WorkerPools.SpuriousReturnBreaksWait` | src/WorkerPool.cc:178-182 | A run in which the untimed wait, which has no predicate, returns spuriously and reports success too early |
| `WorkerPools.NoLostWakeup` | src/WorkerPool.cc:88-116 | Over every run: before shutdown a sleeping worker implies enough workers on their way for the queue; a sleeping call implies an order queued or active |
| `WorkerPools.WorkerStepDecreases` | src/WorkerPool.cc:83-117 | Every step of a worker makes the remaining work smaller |
| `WorkerPools.WorkerRunsEnd` | src/WorkerPool.cc:83-117 | Workers by themselves take a bounded number of steps |
| `WorkerPools.StuckMeansDone` | src/WorkerPool.cc:136-152 | Over every run: when workers can go no further all orders are finished, no call sleeps, and every call can return true; after the shutdown notice the destructor can join every thread and release the waiters, which can return false |
| `WorkerPools.NothingStartsAfterShutdown` | src/WorkerPool.cc:92-103 | After the shutdown no order is started any more; what is queued stays |
| `CsvReading.Stream.ExtractCSVToken` | io/src/CSVStreams.cc:39-76 | One token with its lookahead, and the stream flags after it |
| `CsvReading.Consume` | io/src/CSVStreams.cc:98-154 | The switch with its fallthroughs is the transition function |
| `CsvReading.Stream.ParseCSVRow` | io/src/CSVStreams.cc:79-157 | The loop ends, and leaves the stream and the row of the specification |
| `CsvAccepted.RowReadExactly` | io/src/CSVStreams.cc:39-157 | For all bytes and positions: a row is read up to q if and only if the bytes up to there are a written row and its terminator |
| `CsvAccepted.LastRowReadExactly` | io/src/CSVStreams.cc:39-157 | A row is read up to the end of the stream if and only if all that is left is a written row that ends in a plain field, and not nothing |
| `CsvAccepted.RowsReadExactly` | io/src/CSVStreams.cc:39-206 | The reader yields the written rows one after the other, and nothing from where the bytes are none |
| `CsvReading.RowIterator.Next` | io/src/CSVStreams.cc:189-206 | Advances by one row or becomes the end iterator |
| `CsvReading.ReadAll` | io/src/CSVStreams.cc:189-206 | An iterator yields the rows of its data |
| `CsvRoundTrip.RoundTrip` | io/src/CSVStreams.cc:39-157 | Every table of nonempty rows whose fields can be written, plain or quoted with quotes doubled, is read back exactly when every row is terminated |
| `CsvRoundTrip.RoundTripsExactly` | io/src/CSVStreams.cc:39-157 | Of the dialects with three different characters, every writable table is read back in those with an ASCII quote and a terminator other than the byte 255, and in no other |
| `CsvRoundTrip.QuotedIsReadExactly` | io/src/CSVStreams.cc:60-70 | A text may be written quoted, and is read back, if and only if it is not empty and does not start with a quote |
| `CsvRoundTrip.TwoQuotesAreOne` | io/src/CSVStreams.cc:60-70 | Two quotes alone are a field with one quote |
| `CsvRoundTrip.LastRowWithoutTerminator` | io/src/CSVStreams.cc:44-47 | Without the last terminator the row is lost if it ends in a quoted field, or is one empty plain field, and read otherwise |
| `CsvRoundTrip.RowsAreReadable` | io/src/CSVStreams.cc:79-157 | Every row that is accepted is nonempty and holds only fields that can be written |
| `CsvRoundTrip.ReadableExactly` | io/src/CSVStreams.cc:39-157 | The reader can return exactly those tables |
| `SvgPaths.IsMultipleIffProduct` | graphics/src/SVGLoader.cc:671-700 | A count of numbers is a whole number of groups exactly when it is a product |
| `SvgPaths.ExpansionPreservesDrawing` | graphics/src/SVGLoader.cc:483-703 | Drawing the expanded commands gives the same polyline and end point as drawing the repeated ones |
| `SvgPaths.SplitSubpaths` | graphics/src/SVGLoader.cc:629-656 | Splits before each move and loses no command |
| `SvgPaths.ExpandCommands` | graphics/src/SVGLoader.cc:659-703 | The loops yield the expansion of every subpath |
| `SvgPaths.SubpathToPolyline` | graphics/src/SVGLoader.cc:483-614 | The loops over the numbers draw the subpath of the specification; needed is only that there is a point to go back to whenever a path is closed |
| `SvgPaths.DrawUse` | graphics/src/SVGLoader.cc:495-614 | One use of a command: which point is added, where the pen goes, and what is sampled |
| `SvgDrawing.LinesDrawn` | graphics/src/SVGLoader.cc:501-527 | A move or a line adds a point for each pair of numbers: the pair itself, or counted from the point before it |
| `SvgDrawing.CurveDrawn` | graphics/src/SVGLoader.cc:528-559 | Which points a cubic curve goes through and where the pen is then |
| `SvgDrawing.ArcDrawn` | graphics/src/SVGLoader.cc:560-596 | The same for an arc |
| `SvgDrawing.RelativeIsMoved` | graphics/src/SVGLoader.cc:501-596 | A relative command draws what the absolute one draws with its points moved by the pen |
| `SvgDrawing.RepeatedInTurn` | graphics/src/SVGLoader.cc:501-596 | A command with more numbers draws what its first uses draw and then its other ones |
| `SvgDrawing.OthersDrawn` | graphics/src/SVGLoader.cc:598-614 | Closing a path adds its first point unless it ends there; other commands draw nothing |
| `SvgDrawing.ExpandedCommandIs` | graphics/src/SVGLoader.cc:671-700 | A command becomes one command with its letter for each group of numbers, in order |
| `SvgPaths.ExpansionCloses` | graphics/src/SVGLoader.cc:595-608 | That holds of the expansion exactly when it holds of the repeated commands |
| `SvgPaths.MoveFirstCloses` | graphics/src/SVGLoader.cc:629-656 | And it holds of every subpath that starts with a move that has numbers |
| `SvgPaths.ExpandAndDraw` | graphics/src/SVGLoader.cc:483-703 | Expanding a subpath and drawing the expansion gives the polyline and the end point of the subpath as it was written |
| `Stitching.SegmentsFollow` | graphics/src/SVGLoader.cc:1102-1123 | The segments of a polyline follow one another, none is short, and every point is an end of one or within tolerance of it |
| `Stitching.OnePointMore` | graphics/src/SVGLoader.cc:1102-1123 | One more point adds one segment to it from where the segments end, unless that would be short |
| `Stitching.OnePolylineMore` | graphics/src/SVGLoader.cc:1098-1123 | One more polyline adds its own segments |
| `Stitching.GrownIsStitched` | graphics/src/SVGLoader.cc:1141-1176 | Growing a line attaches each new point at an end within tolerance, uses up what it takes, and stops open only when nothing touches its end |
| `Stitching.StitchingConserves` | graphics/src/SVGLoader.cc:1125-1189 | Every segment is used for exactly one step of one polyline; closed lines end within tolerance of their start; the end of an open line is touched by no segment left |
| `Stitching.LinesStartInOrder` | graphics/src/SVGLoader.cc:1125-1131 | Each line starts with the first segment that no earlier line has used |
| `Stitching.ExtractSegments` | graphics/src/SVGLoader.cc:1098-1123 | The loop that extracts the segments and drops short ones |
| `Stitching.FindNext` | graphics/src/SVGLoader.cc:1143-1175 | The search takes the first touching segment, by its second end when both touch |
| `Stitching.GrowPolyline` | graphics/src/SVGLoader.cc:1128-1176 | The loop that grows one polyline |
| `Stitching.PathsToClosedPolylines` | graphics/src/SVGLoader.cc:1092-1190 | The loops end, and return the closed and the open polylines of the specification |
| `Skeletons.Node.UpdateChildrenTransforms` | graphics/src/SkeletonNode.cc:172-188 | The worklist visits every node below once, parents first, and poses it |
| `Skeletons.Node.PushChildren` | graphics/src/SkeletonNode.cc:174-183 | Pushing from the last child to the first puts them in front in order |
| `Skeletons.Node.SetTransform` | graphics/src/SkeletonNode.cc:132-150 | A posed tree is posed again with the update; without it exactly when the new pose leaves every child where it was |
| `Skeletons.Node.SetModelTransform` | graphics/src/SkeletonNode.cc:198-214 | With the update, posed again if and only if the parent times its inverse gives the new pose back |
| `Skeletons.RestoresExactly` | graphics/src/SkeletonNode.cc:204-210 | In a monoid, the parent restores every pose if and only if its inverse is an inverse |
| `Skeletons.PosedAgain` | graphics/src/SkeletonNode.cc:185-187 | A change below and at one node that poses them poses the tree |
| `Skeletons.PosedIfChildrenFollow` | graphics/src/SkeletonNode.cc:132-150 | A change at one node only: posed exactly when that node is and its children follow it |
| `Skeletons.PosedIsProductOfPath` | graphics/src/SkeletonNode.cc:185-187 | A tree is posed exactly when every pose is the product of the transforms from the root down to the node |
| `Skeletons.Skeleton.SetRootNode` | graphics/src/Skeleton.cc:93-97 | Sets the root and numbers the tree |
| `Skeletons.Skeleton.BuildNodeMap` | graphics/src/Skeleton.cc:187-209 | Nodes are numbered in preorder, the map inverts the handle, older entries beyond stay, and a null root gives nothing |
| `Skeletons.NumberedLists` | graphics/src/Skeleton.cc:187-209 | After a root is set the map lists the nodes of its tree and then what an earlier, longer list leaves over |
| `Skeletons.Skeleton.Scale` | graphics/src/Skeleton.cc:159-179 | Every transform is scaled as often as the map lists its node, entries left from an earlier root included, and the tree is posed; a null root changes nothing |
| `Skeletons.FreshMapScalesOnce` | graphics/src/Skeleton.cc:159-179 | After one call of RootNode that is exactly once for every node |
| `Skeletons.Skeleton.ScaleNodes` | graphics/src/Skeleton.cc:167-176 | The loop over the map in the order of its keys |
| `Tokenizing.NextToken` | src/Util.cc:476-482 | One call of the tokenizer skips delimiters and returns the next stretch without them |
| `Tokenizing.Split` | src/Util.cc:469-486 | Returns all maximal stretches free of the delimiter |
| `Tokenizing.SplitOfJoin` | src/Util.cc:469-486 | Splitting undoes joining, with or without a delimiter in front and at the end |
| `Texts.TrimmedIsClean` | src/Util.cc:489-529 | A trimmed string is over an alphabet exactly when nothing outside it comes before the white space at the end |
| `Texts.AlphabetsOfRfc3986` | src/URI.cc:584-727 | A query has exactly the characters of RFC 3986, a path those of its segments, the slash, square brackets and blanks |
| `UriPaths.URIPath.PushBack` | src/URI.cc:447-480 | Appends one part with its slashes encoded, without the slash in front of the first one, which makes the path absolute as a drive does; an empty part changes nothing |
| `UriPaths.EscapedJoin` | src/URI.cc:470-477 | Pieces joined by slashes become the same pieces joined by the encoding of the slash |
| `UriPaths.URIPath.Str` | src/URI.cc:520-548 | Prints the slash, the parts and the trailing slash; none in front of a drive |
| `UriPaths.URIPath.Parse` | src/URI.cc:612-629 | True exactly for valid strings, which replace the state; others leave it |
| `UriPaths.PrintedIsCollapsed` | src/URI.cc:520-548 | A path prints as its string with runs of slashes collapsed, without the slash in front of a drive |
| `UriPaths.ReparseGivesTheSame` | src/URI.cc:520-629 | Parsing the printed form gives the same parts, absoluteness and trailing slash |
| `UriPaths.ReadBack` | src/URI.cc:520-629 | For a valid string the printed form is valid if and only if no slash is dropped in front of a character that may not come first |
| `UriPaths.LosesSlashExample` | src/URI.cc:520-548 | A valid path, a slash and a drive written with an equals sign, whose printed form is refused |
| `UriQueries.URIQuery.Str` | src/URI.cc:655-672 | The loop prints a question mark and the entries, with a delimiter in front of each but while nothing is there |
| `UriQueries.AppendedIs` | src/URI.cc:655-672 | For all entries: they come out joined by the delimiter, but for empty ones in front, which are skipped with their delimiters |
| `UriQueries.AppendedIsPrinted` | src/URI.cc:655-672 | All entries come out joined by the delimiter if and only if the first is not empty, or there is at most one, or the delimiter is empty |
| `UriQueries.URIQuery.Insert` | src/URI.cc:649-652 | Adds one entry at the end |
| `UriQueries.URIQuery.Parse` | src/URI.cc:725-745 | True exactly for valid strings, which replace the entries; others leave them |
| `UriQueries.EntryReadBack` | src/URI.cc:734-741 | The text of an entry is read as that entry again, however many equals signs it holds |
| `UriQueries.ReadBack` | src/URI.cc:655-745 | Parsing the printed form of a parsed query gives the same entries |
| `UriQueries.PrintedIsValid` | src/URI.cc:693-745 | For a valid string the printed form is valid if and only if at most one white space character is in front of a nonblank string |
| `Base64Codes.EncodedLength` | src/Base64.cc:62-105 | The encoding has 4 * ceil(n / 3) characters |
| `Base64Codes.PackedIsSextets` | src/Base64.cc:74-79 | The masks and shifts give the four sextets of the 24-bit group |
| `Base64Codes.SymbolOfIndex` | src/Base64.cc:122-131 | The decoder finds exactly the characters of the alphabet, each at its position |
| `Base64Codes.SymbolsIncrease` | src/Base64.cc:49-52 | The alphabet is A to Z, a to z and 0 to 9 in order, and plus and slash |
| `Base64Codes.Encode` | src/Base64.cc:62-105 | Appends what section 4 of RFC 4648 defines |
| `Base64Codes.EncodeTail` | src/Base64.cc:87-104 | One or two bytes left are filled with zero bits and padded |
| `Base64Codes.DecodeOfEncode` | src/Base64.cc:62-169 | Decoding an encoding gives the bytes back, for every byte string |
| `Base64Codes.EncodeOfDecode` | src/Base64.cc:62-169 | Encoding what was decoded gives the text back if and only if it is canonical: complete groups, padding, and zeros in the bits left over |
| `Base64Codes.Decode` | src/Base64.cc:108-169 | The loop stops at the first other character and decodes the groups before it |
| `Base64Codes.DecodeTail` | src/Base64.cc:146-166 | Two characters left give one byte and three give two, with missing ones not found in the alphabet |
| `Animations.Animation.UpperBound` | graphics/src/Animation.cc:237-241 | The position of the first frame after a time |
| `Animations.Animation.CreateKeyFrame` | graphics/src/Animation.cc:234-245 | Inserts the frame behind those up to its time and keeps the frames sorted |
| `Animations.Animation.Wrap` | graphics/src/Animation.cc:257-259 | The reduction ends, and takes the length off just as often as needed |
| `Animations.Animation.FramesAround` | graphics/src/Animation.cc:260-285 | The frames are one frame at the time, two neighbours around it, or the last and the first one |
| `Animations.Animation.KeyFramesAtTime` | graphics/src/Animation.cc:248-293 | The parameter is in [0, 1] and that part of the way from the first frame to the second is the time |
| `Animations.InterpolatedKeyFrame` | graphics/src/Animation.cc:388-412 | The value is that part of the way between the two frames around the time that the time is, and lies between theirs; at the time of a frame it is that of the frame |
| `Animations.OnlyThatFrame` | graphics/src/Animation.cc:248-293 | At the time of a frame that frame is found and nothing is interpolated |
| `Animations.TrajectoryInfo.SetWaypoints` | graphics/src/Animation.cc:523-561 | Start and end are the times of the first and the last waypoint; segments end at increasing times, are not negative, and the first covers nothing; the animation is as long and has a frame for each waypoint at its time |
| `Animations.MeetsWaypoint` | graphics/src/Animation.cc:538-554 | At the time of a waypoint the animation is at its frame alone |
| `Animations.TrajectoryInfo.DistanceSoFar` | graphics/src/Animation.cc:451-476 | The loop returns the completed distance and the part of the segment under way, in proportion to the time |
| `Animations.DistanceGrows` | graphics/src/Animation.cc:451-476 | The distance never shrinks as time goes on |
| `Animations.DistanceIsLinear` | graphics/src/Animation.cc:468-474 | Within a segment the distance grows in proportion to the time |
| `Animations.UnderwayBounds` | graphics/src/Animation.cc:451-476 | It lies between zero and the total, and between what is completed and that with the next segment |
| `Animations.ExactAtWaypoints` | graphics/src/Animation.cc:451-476 | At every waypoint it is exactly the sum of the segments up to it, and from one to the next it grows by the segment between |

## Left out

- Rounding of `double` and `float` values; not-a-number and infinities.
- The tolerance of vector equality and vector normalization: both are parameters in `Neighbors.dfy`, and the duplicate maps of `Collada.dfy` compare exactly.
- Stored vertex normals and texture coordinates of generated tubes, and the angles of their vertices: `Tubes.CreateTube` takes the placement of vertices as a function.
- COLLADA inputs without a VERTEX input, normals combined with vertices, two inputs at one offset, a set used twice, position and texture coordinate indices out of range, skinning, and sources that are cached under another transform.
- `Loaders.Builder.LoadTriangles`: normal indices are in range, because these loops, unlike those of LoadPolylist, do not look.
- Reading XML, OBJ text, SVG files and image formats; materials, smoothing groups and tags; faces that are not triangulated.
- The SVG command q, and z with numbers: on them the loop of `ExpandCommands` makes no progress. Sampling of Bezier curves and arcs is an arbitrary function. A z before there is any point, and a polyline that is not empty at first.
- Exceptions thrown by an order, and fairness of the scheduler.
- CSV dialects in which two of the three characters are the same.
- `Sha1Streams.Sha1.Digest`: the hexadecimal printing of the digest is not modelled.
- `Skeletons.Skeleton.Scale`: scaling of animations is not modelled; nodes that are left in the map from an earlier root are in trees that still exist.
- Strings that hold a zero character, which ends them for the tokenizer.
- Whole URIs, authorities and fragments, PushFront, PopFront and PopBack of paths.
- `Base64Codes.Decode`: lengths beyond the range of int.
- Splines and rotations between key frames; playback time; trajectories without waypoints, and the names of their animations.
- File system, console, processes, time sources, images, audio and video, terrain, convex decomposition: foreign code and plumbing.
