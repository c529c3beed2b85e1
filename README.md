# Road-map builder and navigator, modelled in Dafny

This project models the core of a small road-map system. It is written as
five near-duplicate C programs:

- two **map builders**, `MAP_MAKE.c` (directed edges with a turn direction)
  and `map_making.c` (two-way roads without directions);
- three **map navigators**:
  - `MAP_NAVIGATE.c`, directed, with path enumeration and Dijkstra;
  - `map_navigator_adi.c`, where every road is loaded in both directions and
    the reverse half gets the opposite turn;
  - `map_navigator.c`, undirected.

The model has five modules.

- **`Directions`**: the four turn directions, their names, the
  case-sensitive name parser and the reverse-direction switch.
- **`GraphStore`**: the graph store, a `class Graph<L>`.
  - Its fields are the vertex count `V` and `adj: seq<seq<Edge<L>>>`, one
    adjacency list per vertex with the most recent edge at index 0.
  - The edge label `L` is `Direction` for the directed programs and `()` for
    the undirected ones.
  - `createGraph` is the constructor. `addEdge` of the builders is
    `AddEdge` and `AddRoad`, which reject a negative endpoint and grow the
    store to `max(src, dest) + 1` vertices with empty new lists.
  - `saveMapToFile` is `Save`. It produces the header and the record
    sequence, specified by `Encode`.
  - Two views of the store are used by the lemmas: the edge bag (a multiset
    of `(source, edge)` pairs) and walks (vertex sequences joined by edges).
- **`MapCodec`**: the three `loadMapFromFile` loaders over a map file.
  - A map file is modelled as its whitespace-separated tokens
    (`Tok = Num(int) | Word(string)`).
  - Each loader is a method over a `Graph`. It is proved to build exactly
    the lists of a decoding function, and the lemmas are about that
    function.
  - A loader returns nothing when the header does not parse. It keeps the
    header's vertex count. Reading stops at the first record whose integer
    fields do not parse. An unknown direction word drops only its own
    record, and a record with an endpoint outside `[0, V)` adds nothing.
  - Round trips, from the builders' files to the navigators' graphs:
    - The directed round trip keeps every list's edges and reverses the
      list's order. `saveMapToFile` writes each list head first and the
      loader prepends.
    - The undirected round trip doubles every road. Each saved record of a
      two-way road is read back as a pair, and both halves of the road were
      saved.
- **`PathEnumerator`**: `DFS` and `findPaths`.
  - They are methods over the shared `visited` and `path` arrays, with mark
    and unmark, and return the emitted routes in emission order. Each route
    is a path and its printed total.
  - The methods are proved equal to a recursive specification, `Search` and
    `Explore`. That specification is proved to emit exactly the simple paths
    from the source to the destination, each with the sum of its edge
    distances.
  - The direction legend of the directed navigators is `Legend`. It is the
    first-match lookup of the edge for each step, and it is proved to find
    an edge for every step of every emitted path.
- **`ShortestPaths`**: `minDistance`, `dijkstra` and `printShortestPath` of
  `MAP_NAVIGATE.c`.
  - They use the source's sentinel distance 10000 and its `parent` array.
    The array methods are proved equal to a round-by-round function on a
    `State`.
  - The invariant of the rounds gives these results:
    - parent links point to vertices settled earlier, so the route
      reconstruction always ends at a root;
    - every parent link is an edge that makes up the difference in
      distance;
    - distances only go down;
    - every distance below the sentinel is the weight of the route printed
      for it;
    - with non-negative distances, no walk from the source is shorter than
      the distance computed.

The model follows the code where it departs from a textbook shortest-path solver:

- The code uses the finite sentinel 10000, not an infinity. A vertex whose
  true distance is 10000 or more is therefore printed with distance 10000,
  as if unreached. `Optimal` and `Sound` together imply that no distance
  below 10000 is reported for such a vertex.
- The code does not check edge distances for sign. Only the optimality
  lemma asks for non-negative distances.

## Model

| member | source | states |
|---|---|---|
| `Directions.Name` | MAP_MAKE.c:134-148 | The word the builder writes for a direction. It is shorter than 10 characters, so with its terminator it fits the 10-byte buffer the loaders read it into. |
| `Directions.Parse` | MAP_MAKE.c:202-213 | A word yields a direction only when it is exactly that direction's lower-case name. It yields none when it is none of the four names. |
| `Directions.ParseName` | MAP_MAKE.c:135-148 | Parsing the name written for a direction gives the direction back. |
| `Directions.Opposite` | map_navigator_adi.c:210-224 | The reverse direction of a road half always differs from the direction. |
| `Directions.OppositeInvolution` | map_navigator_adi.c:210-224 | Reversing twice gives the original direction (right/left and straight/back swap). |
| `GraphStore.Empty` | MAP_NAVIGATE.c:62-66 | n adjacency lists, all empty. |
| `GraphStore.Graph.constructor` | MAP_MAKE.c:41-53 | createGraph: V is n, and all n lists are empty. |
| `GraphStore.Graph.Link` | MAP_NAVIGATE.c:207-209 | The edge goes at the head of the source's list. No other list changes, and the edge bag gains exactly that pair. |
| `GraphStore.Graph.Grow` | MAP_MAKE.c:63-70 | V becomes the new size. The old lists are unchanged and every new slot is empty, so the edge bag is unchanged. |
| `GraphStore.Graph.Admit` | MAP_MAKE.c:58-71 | A negative endpoint is rejected and nothing changes. Otherwise V becomes max(V, max(src, dest) + 1) and never decreases, old lists stay and new slots are empty. |
| `GraphStore.Graph.AddEdge` | MAP_MAKE.c:56-81 | Fails exactly on a negative endpoint, leaving the graph unchanged. Otherwise it grows as needed and then every list u is `[src -> dest]` if u == src, followed by its old content. The bag gains one pair. |
| `GraphStore.Graph.AddRoad` | map_making.c:58-91 | Fails exactly on a negative endpoint. Otherwise it grows as needed and prepends src -> dest, then dest -> src, with the same distance. When src == dest both land on one list, the reverse one on top. The bag gains both pairs. |
| `GraphStore.Max` | MAP_MAKE.c:63 | The larger endpoint, from which `newV` is computed: at least as large as both arguments and equal to one of them. |
| `GraphStore.LinkBag` | MAP_MAKE.c:73-75 | Prepending one edge adds exactly one (source, edge) pair to the edge bag. |
| `GraphStore.GrowBag` | MAP_MAKE.c:66-69 | Appending empty lists adds no edges. |
| `GraphStore.Road` | map_making.c:79-85 | The two head insertions of an undirected `addEdge`: the forward edge on top of src's list, then the reverse edge on top of dest's list, which may be the same list. It has no contract of its own; `PrependTwo`, `RoadBag` and `RoadInRange` state its closed form, its edge bag and that it keeps edges in range. |
| `GraphStore.PrependTwo` | map_making.c:79-85 | The closed form of a road's two prepends on a grown store. |
| `GraphStore.RoadBag` | map_making.c:79-85 | A road's two prepends add both of its halves to the edge bag. |
| `GraphStore.SymmetricPair` | map_making.c:79-85 | Adding both halves of a road keeps the edge bag symmetric: every u -> v of distance w occurs as often as v -> u of distance w. |
| `GraphStore.Graph.Save` | MAP_MAKE.c:117-156 | saveMapToFile: the header is V and the records are `Encode(adj)`. Nothing in the store changes. |
| `GraphStore.EncodeOrder` | MAP_MAKE.c:128-151 | Records come in ascending source order and every destination is a vertex. The records of source s are exactly `adj[s]`, head first, so each edge is written once and nothing else is. |
| `GraphStore.ListRecords` | MAP_MAKE.c:131-151 | The records written for one adjacency list: one per node, in list order, each with the list's vertex as its source. |
| `GraphStore.EncodeFrom` | MAP_MAKE.c:129-152 | The records for vertices i upwards, each vertex's list in turn. Every source lies in `[i, V)`. |
| `GraphStore.Encode` | MAP_MAKE.c:128-152 | All records the nested loops write. Every source is a vertex; `EncodeOrder` gives their order and contents. |
| `MapCodec.Lines` | MAP_NAVIGATE.c:189 | The records the `"%d %d %d %s"` loop reads, one per group of four tokens from the start, up to the first group that is incomplete or has a non-integer among its first three tokens. There are at most a quarter as many records as tokens. |
| `MapCodec.Triples` | map_navigator.c:153 | The records the `"%d %d %d"` loop reads, one per group of three integer tokens, up to the first incomplete or non-integer group. There are at most a third as many records as tokens. |
| `MapCodec.LinesRead` | MAP_NAVIGATE.c:189 | The j-th record read by the "%d %d %d %s" loop holds tokens 4j to 4j+3, the first three integers. |
| `MapCodec.LinesStop` | MAP_NAVIGATE.c:189 | Reading stops at the first group of four tokens that is incomplete or has a non-integer numeric field. |
| `MapCodec.TriplesRead` | map_navigator.c:153 | The j-th record read by the "%d %d %d" loop holds tokens 3j to 3j+2. |
| `MapCodec.TriplesStop` | map_navigator.c:153 | Reading stops at the first group of three tokens that is incomplete or has a non-integer field. |
| `MapCodec.DirectionOf` | MAP_NAVIGATE.c:190-203 | A token names a direction exactly when it is a word the parser accepts, and then it is that direction's name. An integer token names none. |
| `MapCodec.Header` | MAP_NAVIGATE.c:178-186 | Success exactly on a non-negative integer first token, with that vertex count. A missing header, or a header token that is not wholly an integer, is an invalid format; a partly numeric one is listed under "Left out". A negative one is an allocation failure. |
| `MapCodec.Prepend` | MAP_NAVIGATE.c:207-209 | One head insertion by a loader: the edge goes on top of its source's list, and a source outside the store changes nothing. It is a helper of `Insert` with no contract of its own. |
| `MapCodec.Insert` | MAP_NAVIGATE.c:205-209 | The lists after the insertions are prepended in order, each at the head of its source's list, with an out-of-range source ignored. This is the loaders' repeated head insertion (also map_navigator_adi.c:205-207 and 226-228, map_navigator.c:157-163). It has no contract of its own; `InsertStacks` gives its closed form and `LoadedBag` its edge bag. |
| `MapCodec.Aimed` | MAP_NAVIGATE.c:205-209 | The edges inserted into the list of s, in insertion order. It is a helper of `InsertStacks`, which shows that list s ends up as the reverse of these edges on top of its old contents. |
| `MapCodec.InsertStacks` | MAP_NAVIGATE.c:205-209 | After the inserts, each list holds the edges aimed at it, the last inserted first, on top of what it held before. |
| `MapCodec.LoadedBag` | MAP_NAVIGATE.c:186-212 | A fresh n-vertex store after in-range prepends has n lists, every edge in range, and exactly the inserted pairs as its edge bag. |
| `MapCodec.DirectedLoadContents` | MAP_NAVIGATE.c:189-212 | After a directed load, s -> e is in the graph exactly when some record read names s, a known direction and in-range endpoints, and carries e. |
| `MapCodec.TwoWayLoadOpposed` | map_navigator_adi.c:203-229 | After a two-way load, V is the header and u -> v of distance w heading t occurs as often as v -> u of distance w heading the opposite way. |
| `MapCodec.TwoWayCounts` | map_navigator_adi.c:205-228 | The two-way loader's inserts pair every edge with its opposite-direction reverse, count for count. |
| `MapCodec.RoadLoadSymmetric` | map_navigator.c:153-165 | After an undirected load, V is the header and the edge bag is symmetric. |
| `MapCodec.RoadInsertionsSymmetric` | map_navigator.c:155-164 | The undirected loader's inserts form a symmetric bag. |
| `MapCodec.DirectedInsertions` | MAP_NAVIGATE.c:190-211 | The edges the directed loader inserts, in file order: one `src -> dest` edge for each record whose direction word is known and whose endpoints are both in `[0, n)`. Every insertion is in range, and there are no more than there are records. |
| `MapCodec.TwoWayInsertions` | map_navigator_adi.c:188-229 | Two insertions for each accepted record: `src -> dest` with its direction, then `dest -> src` with the opposite direction and the same distance. All are in range, at most two per record. |
| `MapCodec.RoadInsertions` | map_navigator.c:155-164 | Two insertions for each triple with both endpoints in range, one each way with the same distance. All are in range, at most two per triple. |
| `MapCodec.DecodeDirected` | MAP_NAVIGATE.c:169-216 | The result of a directed load: it fails exactly when the header does, with the header's error. Otherwise it is as many lists as the header says, every edge in range, after the insertions are prepended in file order. |
| `MapCodec.DecodeTwoWay` | map_navigator_adi.c:167-234 | The same for the two-way loader and its insertions. |
| `MapCodec.DecodeRoads` | map_navigator.c:134-169 | The same for the undirected loader and its triples. |
| `MapCodec.LoadDirected` | MAP_NAVIGATE.c:169-216 | loadMapFromFile, directed: a header error is returned as is. Otherwise the graph has the header's V and exactly the decoded lists. |
| `MapCodec.LoadTwoWay` | map_navigator_adi.c:167-234 | loadMapFromFile with reverse halves: the same, with the two-way decoding. |
| `MapCodec.LoadRoads` | map_navigator.c:134-169 | loadMapFromFile, undirected: the same, with three-field records. |
| `MapCodec.DirectedBody` | MAP_MAKE.c:149 | The tokens the directed builder writes for its records: four per record, the three integers and then the direction's name. |
| `MapCodec.RoadBody` | map_making.c:127 | The tokens the undirected builder writes: three integers per record. |
| `MapCodec.DirectedBodyReads` | MAP_MAKE.c:149 | Reading back the records the directed builder writes inserts exactly their edges, in file order. Every name parses and no record is dropped. |
| `MapCodec.DirectedRoundTrip` | MAP_NAVIGATE.c:189-211 | A map saved by the directed builder and loaded by the directed navigator keeps V. Every list comes back reversed, with the same edges. |
| `MapCodec.RoadBodyReads` | map_making.c:127 | Reading back the undirected builder's records inserts each record's edge and then its reverse. |
| `MapCodec.RoadRoundTrip` | map_making.c:121-130 | A map saved by the undirected builder and loaded by the undirected navigator keeps V. u -> v of distance w occurs as often as u -> v and v -> u did before, so a symmetric store comes back with every road twice. |
| `PathEnumerator.Search` | MAP_NAVIGATE.c:71-130 | The routes DFS emits on reaching u after a prefix, in emission order: the path itself when u is the destination, otherwise the routes through u's edges in list order. It has no contract of its own; `SearchSound`, `SearchComplete` and `FoundExactlySimplePaths` state what it emits. |
| `PathEnumerator.Explore` | MAP_NAVIGATE.c:112-127 | The routes through a list of edges out of the last path vertex, in list order. An edge to a vertex already on the path adds nothing. It has no contract of its own; the `Search` lemmas cover it. |
| `PathEnumerator.SearchSound` | MAP_NAVIGATE.c:71-130 | Every route emitted after a prefix extends that prefix by a walk from u to dest. The route's path is simple, and its total is the running total plus the walk's weight. |
| `PathEnumerator.SearchComplete` | MAP_NAVIGATE.c:112-127 | Every simple walk from u to dest that avoids the prefix is emitted, with its weight added to the running total. |
| `PathEnumerator.FoundExactlySimplePaths` | MAP_NAVIGATE.c:160-162 | The routes from src to dest are exactly the simple paths from src to dest, so dest occurs only at the end. Each route's total is the sum of its edge distances. |
| `PathEnumerator.Mark` | MAP_NAVIGATE.c:73-74 | Marking a vertex off the path keeps the visited flags equal to the path's vertices, and unmarking it restores the flags. |
| `PathEnumerator.DFS` | MAP_NAVIGATE.c:71-130 | The path buffer write stays in bounds. The visited array is as on entry and the path prefix is unchanged. The routes are `Search` of the prefix. |
| `PathEnumerator.Neighbours` | MAP_NAVIGATE.c:114-126 | The loop over u's edges leaves the visited flags and the path as they were. It gathers the routes of each edge in list order. |
| `PathEnumerator.Follow` | MAP_NAVIGATE.c:118-124 | An edge to a vertex on the path is skipped. Otherwise the search goes on with the edge's distance added, and the flags are left as they were. |
| `PathEnumerator.FindPaths` | MAP_NAVIGATE.c:134-166 | No search when src or dest is not a vertex. Otherwise the routes are those of a search from src with total 0. When src == dest, the only route is `[src]` with total 0. |
| `PathEnumerator.RoutesLinked` | map_navigator_adi.c:83-87 | Consecutive vertices of every emitted path are joined by an edge, so the lookup of each step's edge finds one and its scan ends. |
| `PathEnumerator.FirstTo` | map_navigator_adi.c:83-87 | The position found is the first edge of the list that leads to the target. |
| `PathEnumerator.FirstMatch` | map_navigator_adi.c:83-87 | The edge walk stops at the first edge of the list that leads to the target. |
| `PathEnumerator.Turns` | map_navigator_adi.c:78-105 | One tag per step of the path. |
| `PathEnumerator.Legend` | map_navigator_adi.c:78-105 | The tags printed with a path are, step by step, those of the first edge to each step's target. |
| `ShortestPaths.Start` | MAP_NAVIGATE.c:252-259 | The initial tables are sized to V with nothing settled. |
| `ShortestPaths.Lightest` | MAP_NAVIGATE.c:219-231 | The vertex selected is unvisited and below the sentinel. No unvisited vertex is closer, and every earlier unvisited vertex is strictly farther. None means no unvisited vertex is below the sentinel. |
| `ShortestPaths.MinDistance` | MAP_NAVIGATE.c:219-231 | The scan returns exactly `Lightest` of the tables. |
| `ShortestPaths.Relax` | MAP_NAVIGATE.c:272-276 | Relaxing an edge leaves the visited flags and the settle order alone. |
| `ShortestPaths.RelaxFrom` | MAP_NAVIGATE.c:266-279 | The relaxation loop over u's edges from position i, in list order. The table sizes, the visited flags and the settle order stay as they are. |
| `ShortestPaths.Visit` | MAP_NAVIGATE.c:264 | `visited[u] = true`: u becomes visited and no other vertex changes. Distances and parents are unchanged, and u is appended to the settle order. |
| `ShortestPaths.Settle` | MAP_NAVIGATE.c:263-279 | One round: visit the selected u, then relax its edges. The visited flags gain exactly u, and the settle order grows by u. |
| `ShortestPaths.Rounds` | MAP_NAVIGATE.c:261-280 | The rounds of the outer loop, at most c of them, ending early when no unvisited vertex is below the sentinel. The tables keep V entries; `RoundsEnd` and `RoundsKeep` state what the rounds achieve. |
| `ShortestPaths.Shortest` | MAP_NAVIGATE.c:247-280 | The tables dijkstra leaves: `V - 1` rounds from the initial tables, V entries each. |
| `ShortestPaths.RelaxLowers` | MAP_NAVIGATE.c:272-276 | A relaxation only lowers a distance. It changes only the distance and parent of the edge's unvisited target. |
| `ShortestPaths.RelaxTree` | MAP_NAVIGATE.c:272-275 | Every parent set by a relaxation is a vertex settled earlier, and its edge makes up the difference in distance. |
| `ShortestPaths.RelaxFromKeeps` | MAP_NAVIGATE.c:266-279 | Relaxing the rest of u's edges keeps the invariant of the round. |
| `ShortestPaths.StartInv` | MAP_NAVIGATE.c:252-259 | The initial tables satisfy the invariant of the rounds. |
| `ShortestPaths.VisitKeeps` | MAP_NAVIGATE.c:263-264 | Settling the selected vertex keeps the invariant, with none of its edges relaxed yet. |
| `ShortestPaths.SettleKeeps` | MAP_NAVIGATE.c:263-279 | A whole round keeps the invariant. |
| `ShortestPaths.RoundsKeep` | MAP_NAVIGATE.c:261-280 | Any number of rounds keeps the invariant. |
| `ShortestPaths.RoundsEnd` | MAP_NAVIGATE.c:261 | The rounds end either with no vertex left to select or with one more vertex settled per round. |
| `ShortestPaths.Level` | MAP_NAVIGATE.c:261 | After V - 1 rounds all unsettled vertices are at the same distance. |
| `ShortestPaths.ShortestInv` | MAP_NAVIGATE.c:247-280 | The tables dijkstra leaves satisfy the invariant. |
| `ShortestPaths.SettleLowers` | MAP_NAVIGATE.c:266-279 | Within a round distances only go down, and a settled vertex keeps its distance. |
| `ShortestPaths.Optimal` | MAP_NAVIGATE.c:247-280 | With non-negative distances, no walk from src to v weighs less than the distance dijkstra leaves for v. |
| `ShortestPaths.RouteTo` | MAP_NAVIGATE.c:234-244 | printShortestPath: the route starts at a root (parent -1), ends at v, and every step follows a parent link. |
| `ShortestPaths.ParentsSettledFirst` | MAP_NAVIGATE.c:264-275 | Every parent link dijkstra leaves points to a vertex settled earlier, so printShortestPath terminates. |
| `ShortestPaths.ParentEdge` | MAP_NAVIGATE.c:272-275 | A vertex with a parent p is reached by an edge p -> v with dist[v] = dist[p] plus the edge's distance, and p is settled. |
| `ShortestPaths.Sound` | MAP_NAVIGATE.c:234-244 | The route printed for a vertex below the sentinel starts at src and is a walk whose weight is the distance printed. |
| `ShortestPaths.Unreachable` | MAP_NAVIGATE.c:236-240 | A vertex left at the sentinel has no parent, so its route is the vertex alone. |
| `ShortestPaths.Initialise` | MAP_NAVIGATE.c:252-259 | The tables start as `Start`: every vertex unreached, without parent and unvisited, and the source at 0. |
| `ShortestPaths.RelaxEdges` | MAP_NAVIGATE.c:266-279 | The inner loop over u's list computes exactly the relaxation rounds of u's edges, in list order. |
| `ShortestPaths.Dijkstra` | MAP_NAVIGATE.c:247-280 | The distance and parent tables are those of `Shortest`, the V - 1 rounds of selection, settling and relaxation. |

## Left out

- Input and output:
  - `printf` is left out; results are returned as values.
  - Menus, `scanf` prompts, `fopen`/`fclose`/`fprintf` and the file name are
    left out.
  - A file is the sequence of its tokens. A saved map is its header and
    record sequence; the exact whitespace is not modelled.
- Memory: `malloc`/`realloc`/`free` always succeed and `exit` on allocation
  failure is not modelled. The exception is the loader's negative header,
  which is modelled as the `AllocationFailed` error.
- Overflow and partial reads:
  - Unbounded `int` replaces C's 32-bit `int`, so overflow of distance sums
    is not modelled.
  - The overflow of the 10-byte `%s` buffer is not modelled: a word token is
    compared whole.
  - A record whose integer field is only partly numeric is treated as not
    parsing.
- `MapCodec.Header`: a header token that is only partly numeric, such as
  `5abc` or `3.5`, is read by `%d` as its numeric prefix (5 or 3). The record
  loop then resumes inside that token, and for these two it stops at once,
  giving an empty graph of that many vertices. The model has no prefix read:
  a token is wholly an integer or a word, such a header is a word, and the
  result is `InvalidFormat`.
- `ShortestPaths.MinDistance`: when no unvisited vertex is below 10000, `min_index` is
  uninitialised in the source. The model returns `None` and dijkstra stops
  its rounds early instead of settling an arbitrary vertex.
- `ShortestPaths.Dijkstra`: `src` outside `[0, V)` makes the source index out of bounds,
  so it is a precondition here.
- `ShortestPaths.Dijkstra`: the distance table is returned rather than stored in
  `graph->minDistance`. The 100000 that `createGraph` stores there is
  overwritten before it is read, so it is not modelled.
- The report loop at the end of dijkstra (MAP_NAVIGATE.c:282-291) only
  prints. Its content is `RouteTo` and the distance table, covered by
  `Sound` and `Unreachable`.
- `printGraph` and the map-display menu cases only print.
- `PathEnumerator.Neighbours` and `PathEnumerator.Follow`: the body of DFS's
  neighbour loop (MAP_NAVIGATE.c:114-126) is split into two methods so that
  each step is proved on its own. The running total is a parameter of the
  step and is restored after it, as in the source.
- `PathEnumerator.Legend`: the directions are looked up for each emitted
  route after the search, not during it. The graph does not change during a
  search, so the lookups see the same lists.
- The direction parse in the builder's menu (MAP_MAKE.c:202-213) and in the
  loaders is one function, `Directions.Parse`.
