# Element pools of the point cloud and the graph

This project models the element-pool bookkeeping behind two data models: `PointCloud`
(`core/point_cloud.cpp`) and `Graph` (`core/graph.cpp`).

- **Property containers.** Each pool stores its per-element attributes in a property
  container. A container holds one named property array (a column) per attribute and one
  entry (a row) per element. All arrays of a container have the same length as the
  container's element count.
- **The point cloud.** It keeps a vertex pool with the standard arrays `v:point` and
  `v:deleted`, a counter of deleted vertices and a garbage flag.
  - Vertices are deleted by setting their flag.
  - `collect_garbage` first adds a handle map, `v:garbage-collection`. It then partitions
    the rows into a live prefix and a deleted suffix, swapping whole rows across every
    array: `i0` scans forward and `i1` backward. Finally it removes the handle map and
    truncates the container to the live prefix.
- **The graph.** It keeps a vertex pool (`v:connectivity`, `v:point`, `v:deleted`) and an
  edge pool (`e:connectivity`, `e:deleted`).
  - Each vertex lists its incident edges in the order they were added. Each edge records
    its source and target.
  - `add_edge` uses `find_edge` to refuse parallel edges.
  - Deletion and garbage collection are not implemented for graphs: they only log a
    warning.

## Files

- `property_store.dfy` (module `PropertyStore`) models the property container.
  - It is a value `Container(columns, size)` of named `Column`s.
  - Operations: add and remove a named array, `resize`, `push_back`, `swap` of two rows
    across all arrays, writing an entry or a whole array, keeping the first n arrays
    (`resize_property_array`) and `transfer`.
- `attributes.dfy` (module `Attributes`) holds three things:
  - the entry types, as one sum type `Value`: point, flag, vertex handle, vertex
    connectivity and edge connectivity;
  - the deleted flags of a pool;
  - the count of set flags, with the lemmas that keep the deleted counters consistent.
- `point_cloud.dfy` (module `PointClouds`) contains:
  - class `PointCloud`, whose fields are the two containers, the counter and the garbage
    flag;
  - the garbage collector, as methods on containers. `Compact` is the whole collector.
    `AddHandleMap` is the handle-map loop. `PartitionLive` and `SwapLoop` are the
    two-index partition, and `Scan` holds its two inner scans.
  - the predicate `Compacted`, which specifies the collector: the rows that remain are
    exactly the live rows, each whole and each once.
- `graph.dfy` (module `Graphs`) contains:
  - class `Graph`;
  - the connectivity as a `Topology`, with the invariant `WellLinked`:
    - every edge has two distinct ends and appears once in each end's list;
    - a vertex lists only edges it is an end of;
    - no two edges join the same two vertices;
  - the edge insertion `Connect`, with the lemmas that it keeps `WellLinked` and adds
    exactly one incident edge at each end.

In the C++ source, standard property arrays are reached through handles. In the model
they are identified by their position in the container, in the order the constructors
register them. Vertex and edge handles are integers. The invalid (default-constructed)
handle is -1.

Two behaviours of the code shape the model:

- `PointCloud::collect_garbage` builds a handle map but has no connectivity to rewrite
  through it, so it only removes the map again. The model keeps the map's contents as
  the ghost result `origin` of `CollectGarbage`.
- `Graph::delete_vertex`, `delete_edge` and `collect_garbage` only log a warning, so no
  graph element is ever flagged. The graph invariant (`GraphState`) therefore says the
  deleted counters are zero and the garbage flag is clear.

## Model

| member | source | states |
|---|---|---|
| PropertyStore.Find | core/point_cloud.cpp:57-58 | the position of the array with a given name, or None exactly when no array has that name |
| PropertyStore.Add | core/point_cloud.cpp:35-36 | registering an array is refused exactly when the name exists; otherwise the name is appended, the old arrays are kept, and the new array holds the default in every row |
| PropertyStore.Remove | core/point_cloud.cpp:232 | the named array is gone, the other arrays keep their order, and the container stays well formed with the same size; removing an absent name changes nothing |
| PropertyStore.Resize | core/point_cloud.cpp:235 | every array gets exactly n entries; entries below the old size are kept and new ones take the array's default; names and defaults are unchanged |
| PropertyStore.PushBack | core/point_cloud.cpp:38 | one element is appended: every array keeps its entries and gains its default at the new last row; names and shape are unchanged |
| PropertyStore.SwapRows | core/point_cloud.cpp:224 | entries i and j are exchanged in every array at once; all other entries, the names and the size are unchanged |
| PropertyStore.SetCell | core/point_cloud.cpp:179 | exactly one entry of one array is written; all other arrays are untouched |
| PropertyStore.SetArray | core/point_cloud.cpp:102-103 | one array's contents are replaced; all other arrays are untouched |
| PropertyStore.KeepFirst | core/point_cloud.cpp:134 | only the first n arrays remain, unchanged, and the size is kept |
| PropertyStore.Transfer | core/point_cloud.cpp:77 | each array receives, in its last rows, the entries of the same-named array of the other container; arrays the other container lacks keep their entries |
| PropertyStore.SwapRowsTwice | core/point_cloud.cpp:224 | swapping the same two rows twice restores the container |
| PropertyStore.ResizeToSize | core/point_cloud.cpp:235 | resizing to the current size changes nothing |
| PropertyStore.RemoveUndoesAdd | core/point_cloud.cpp:206-232 | removing the freshly added handle map gives back the original container |
| Attributes.CountSet | core/point_cloud.cpp:193 | the number of set deleted flags is at most the number of elements |
| Attributes.CountAppend | core/point_cloud.cpp:81 | the number of set flags of two pools put together is the sum of their numbers |
| Attributes.CountMark | core/point_cloud.cpp:192-193 | setting a clear flag raises the count by exactly one |
| Attributes.CountIsMultiplicity | core/point_cloud.cpp:193 | the counter of deleted elements is the multiplicity of `true` among the flags, so it does not depend on their order |
| Attributes.CountSwap | core/point_cloud.cpp:224 | exchanging two flags leaves the count unchanged |
| Attributes.CountZero | core/point_cloud.cpp:238 | the count is zero exactly when no flag is set |
| Attributes.CountPartitioned | core/point_cloud.cpp:228 | with a clear prefix of length k and a set suffix, the count is the length of the suffix |
| PointClouds.FirstDeleted | core/point_cloud.cpp:219 | the rows before it are live, and it is deleted unless it is the vertex count |
| PointClouds.SwapKeepsPermuted | core/point_cloud.cpp:224 | swapping two rows of a permuted container composes the permutation with that transposition, and its inverse accordingly |
| PointClouds.SwapFlags | core/point_cloud.cpp:224 | after a row swap each row's deleted flag is the flag of the row that moved there |
| PointClouds.PartitionStart | core/point_cloud.cpp:213-214 | the partition starts from the identity permutation with i0 = 0 and i1 = nV - 1 |
| PointClouds.ScanKeeps | core/point_cloud.cpp:219-220 | the two scans extend the live prefix and the deleted suffix without breaking the loop invariant |
| PointClouds.SwapStep | core/point_cloud.cpp:224 | swapping the first deleted row i0 with the last live row i1 keeps the loop invariant and makes row i0 live and row i1 deleted |
| PointClouds.Scan | core/point_cloud.cpp:219-220 | i0 advances over live rows only and i1 retreats over deleted rows only; unless the scans meet, they stop at a deleted i0 and a live i1 |
| PointClouds.PartitionEnd | core/point_cloud.cpp:228 | when the loop stops, the new size is the number of live rows, and the first deleted row of the original pool lies at or before it, so every row in front of that one survives |
| PointClouds.SwapLoop | core/point_cloud.cpp:216-226 | the loop ends with the rows a permutation of the original, live before i0 and deleted after it, the number of deleted rows unchanged, and the rows before the first deleted one unmoved |
| PointClouds.PartitionLive | core/point_cloud.cpp:211-229 | the rows are permuted so that the first n are live and the rest deleted; n is the vertex count minus the number of deleted vertices; rows before the first deleted one do not move |
| PointClouds.FindStandard | core/point_cloud.cpp:57-58 | v:point and v:deleted are found at the positions where the constructor registered them |
| PointClouds.StandardCopied | core/point_cloud.cpp:101-107 | copying the two standard arrays into fresh standard arrays and resizing gives the source container restricted to its standard arrays |
| PointClouds.Joined | core/point_cloud.cpp:74-77 | the joined pool has both vertex counts added; the old rows are unchanged; each new row holds the other pool's entry of the same-named array, or the array's default where the other pool has none; the points and the deleted flags are the two pools' ones concatenated |
| PointClouds.JoinedCount | core/point_cloud.cpp:81 | joining adds up the numbers of deleted vertices |
| PointClouds.PointCloud.constructor | core/point_cloud.cpp:31-42 | a new cloud has the two standard arrays, no vertices, one model-property slot, a zero counter and no garbage |
| PointClouds.PointCloud.AddVertex | core/point_cloud.cpp:176-181 | exactly one row is appended, holding p and a clear flag; the handle is the old vertex count; existing rows, the counter and the flag are unchanged |
| PointClouds.PointCloud.DeleteVertex | core/point_cloud.cpp:187-195 | an already deleted vertex changes nothing; otherwise only its flag is set, the counter rises by one and the garbage flag is set |
| PointClouds.PointCloud.CopyAssign | core/point_cloud.cpp:48-66 | both containers, the counter and the flag are copied, unless the right-hand side is the cloud itself |
| PointClouds.PointCloud.Join | core/point_cloud.cpp:72-83 | the vertices of the other cloud are appended; the counters add up; the garbage flag is the OR of both; the invariant is kept |
| PointClouds.PointCloud.Assign | core/point_cloud.cpp:89-115 | only the two standard arrays of the right-hand side are kept, with its vertex count and counters; a single empty model-property slot remains |
| PointClouds.PointCloud.Clear | core/point_cloud.cpp:121-137 | the state afterwards is that of a newly constructed cloud |
| PointClouds.PointCloud.CollectGarbage | core/point_cloud.cpp:201-240 | no deleted vertex remains; exactly the live rows remain, each whole and once; the count drops by the number deleted; rows before the first deleted one keep their index; counters are reset; with nothing deleted nothing changes |
| PointClouds.Compact | core/point_cloud.cpp:201-236 | the collector on the container: the result holds exactly the live rows, keeps the standard arrays and no extra array, and has no deleted row |
| PointClouds.CompactedIsClean | core/point_cloud.cpp:238-239 | a container holding only live rows has no set flag, so a zero counter is consistent with it |
| PointClouds.AddHandleMap | core/point_cloud.cpp:206-208 | the handle map is added after the existing arrays, which are unchanged, and row i holds vertex i |
| PointClouds.CompactIdle | core/point_cloud.cpp:211-235 | collecting garbage with no deleted vertex leaves the container unchanged, so a second collection is a no-op |
| PointClouds.MappedAgrees | core/point_cloud.cpp:206-208 | adding the handle map leaves the original arrays and the first deleted row unchanged |
| PointClouds.Compaction | core/point_cloud.cpp:224-235 | after the partition the handle map holds each row's original index; dropping it and truncating leaves exactly the live rows |
| PointClouds.LiveRowsKept | core/point_cloud.cpp:224-228 | the first n rows after the partition came from distinct live rows, and every live row is among them |
| PointClouds.CellsKept | core/point_cloud.cpp:232-235 | removing the handle map and truncating keeps every original array's entries for the rows moved to the front |
| Graphs.AddIsolated | core/graph.cpp:204-209 | the new vertex is the last one and lists no edge; the other vertices and all edges are unchanged |
| Graphs.Connect | core/graph.cpp:219-223 | the new edge is the last one, from start to end, and is the last entry of both ends' incidence lists; every other vertex is unchanged |
| Graphs.AddIsolatedKeepsWellLinked | core/graph.cpp:204-209 | a new vertex without edges keeps the graph well linked, has no incident edge, and changes no other vertex's incident edges |
| Graphs.ConnectKeepsWellLinked | core/graph.cpp:219-223 | a new edge between two distinct vertices not yet joined keeps the graph well linked and joins them; exactly those two vertices gain it as an incident edge |
| Graphs.ConnectShape | core/graph.cpp:219-223 | the new edge records start and end and is appended to both incidence lists; all other lists and edges are unchanged |
| Graphs.ConnectListsTouch | core/graph.cpp:222-223 | after the insertion each vertex still lists only edges it is an end of |
| Graphs.ConnectListsDistinct | core/graph.cpp:222-223 | after the insertion no incidence list repeats an edge |
| Graphs.ConnectEdgesListed | core/graph.cpp:222-223 | after the insertion every edge is listed by both its ends |
| Graphs.ConnectNoParallel | core/graph.cpp:214-223 | an edge inserted only when none joins its ends leaves no two edges joining the same vertices |
| Graphs.ConnectIncident | core/graph.cpp:222-223 | the incident edges of start and end gain the new edge; those of every other vertex are unchanged |
| Graphs.ConnectValence | core/graph.cpp:222-223 | the valences of start and end rise by exactly one and those of the other vertices do not change |
| Graphs.ListedAreIncident | core/graph.cpp:248-251 | a vertex's incidence list holds exactly the edges it is an end of |
| Graphs.DistinctCard | core/graph.cpp:250 | a list without repeats has as many entries as distinct elements |
| Graphs.TouchingIffAdjacent | core/graph.cpp:236-238 | some edge listed by start has end as an end exactly when an edge joins the two; such an edge joins them |
| Graphs.FirstTouching | core/graph.cpp:236-241 | the first listed edge that has end as an end, or the invalid handle exactly when no listed edge does |
| Graphs.ConnectKeepsState | core/graph.cpp:212-226 | inserting an edge keeps the graph invariant, and the connectivity of the new containers is the inserted one |
| Graphs.EmptyIsValid | core/graph.cpp:33-47 | the containers of a new graph satisfy the graph invariant |
| Graphs.Cleared | core/graph.cpp:127-141 | emptying both pools and keeping 3 vertex and 2 edge arrays gives the containers of a new graph |
| Graphs.VerticesCopied | core/graph.cpp:92-106 | copying the three standard vertex arrays and resizing gives the source vertex container restricted to its standard arrays |
| Graphs.EdgesCopied | core/graph.cpp:93-107 | copying the two standard edge arrays and resizing gives the source edge container restricted to its standard arrays |
| Graphs.Graph.constructor | core/graph.cpp:33-47 | a new graph has the standard arrays in registration order, no elements, one model-property slot, zero counters and no garbage |
| Graphs.Graph.CopyAssign | core/graph.cpp:53-76 | all three containers, both counters and the flag are copied, unless the right-hand side is the graph itself |
| Graphs.Graph.Assign | core/graph.cpp:82-117 | only the standard arrays of the right-hand side are kept, 3 for vertices and 2 for edges, with its sizes and counters; a single empty model-property slot remains |
| Graphs.Graph.Clear | core/graph.cpp:123-145 | the state afterwards is that of a newly constructed graph |
| Graphs.Graph.Reserve | core/graph.cpp:151-156 | reserving capacity changes no element, array, counter or flag |
| Graphs.Graph.AddVertex | core/graph.cpp:204-209 | exactly one vertex row is appended holding p; the handle is the old vertex count; the new vertex has no edges; the edge pool is untouched |
| Graphs.Graph.FindEdge | core/graph.cpp:232-242 | the first edge in start's list that has end as an end, or the invalid handle exactly when there is none; for distinct vertices, invalid exactly when no edge joins them, and otherwise the edge joins them |
| Graphs.Graph.Valence | core/graph.cpp:248-251 | the length of the incidence list equals the number of edges incident to the vertex |
| Graphs.Graph.AddEdge | core/graph.cpp:212-226 | if an edge already joins the two vertices in either orientation, it is returned and nothing changes; otherwise edge number edges_size() is added from start to end and appended to both incidence lists; the invariant is kept |
| Graphs.Graph.DeleteVertex | core/graph.cpp:264-267 | nothing changes: the operation only warns |
| Graphs.Graph.DeleteEdge | core/graph.cpp:303-306 | nothing changes: the operation only warns |
| Graphs.Graph.CollectGarbage | core/graph.cpp:319-322 | nothing changes: the operation only warns |

## Left out

- The property container (`property.h`) is not part of this model.
  - Its add, remove, resize, swap, `resize_property_array` and `transfer` are modelled as
    Easy3D's container behaves.
  - Adding an array whose name exists is refused, and the model keeps that error path
    (`Add` returns None).
  - `transfer` copies each same-named array into the last rows.
- The headers are not part of this model either. These facts are assumed from them:
  - `new_vertex` and `new_edge` are a `push_back` that returns the last index;
  - `edges(v)` iterates `m_vconn[v].edges_` in insertion order;
  - `PointCloud::resize(n)` resizes the vertex container `m_vprops`;
  - `vertices_size()` and `edges_size()` are the sizes of the vertex and edge containers;
  - `vertex(e, 0)` and `vertex(e, 1)` are an edge's source and target;
  - `is_valid` means an index below the pool size;
  - the default `vec3` is the origin.
- Type-erased storage and typed downcasts are left out. Entries are one sum type `Value`,
  and standard arrays are reached by position, not through pointer handles.
- PropertyStore.Transfer: copies every array of the same name, whatever its entries. The
  container's `transfer` also requires the same element type; with one sum type `Value`
  that check is not modelled, and PointClouds.Joined inherits this.
- Capacity is not modelled: `reserve`, `shrink_to_fit` and `Graph::reserve` change no
  observable state.
- `property_stats` (stream output), the `LOG(WARNING)` messages and `Graph::edge_length`
  (floating point) are left out.
- The commented-out bodies of the graph's `delete_vertex`, `delete_edge` and
  `collect_garbage` are left out. They are dead code.
- PointClouds.PointCloud.Join: requires the other cloud to be a different object. A
  self-join would copy a range onto itself and is not modelled.
- PointClouds.PointCloud.CollectGarbage: requires that no array is already named
  `v:garbage-collection`. The C++ code would then get an invalid handle map, which is not
  modelled.
- PointClouds.PointCloud.DeleteVertex: does not model 32-bit wrap-around of the
  `unsigned int` counter, because counters are unbounded naturals here. The same holds for
  PointClouds.PointCloud.Join.
- PointClouds.PointCloud.CollectGarbage: the `int` indices `i0`, `i1` and `nV` are
  unbounded, so vertex counts beyond 2^31 - 1 are not modelled.
- PointClouds.PointCloud.DeleteVertex: requires a valid handle. The C++ code indexes the
  array without checking.
- Graphs.Graph.AddEdge: requires valid, distinct end vertices. These are asserted in the
  C++ code, not handled as errors.
- Graphs.Graph.FindEdge: requires valid vertices, as the C++ code asserts.
- Graphs.Graph.Valence: requires a valid vertex. The C++ code indexes `m_vconn[v]` without
  checking.
