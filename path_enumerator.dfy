/** findPaths: enumerate every simple path from a source to a destination
    by depth-first search with backtracking, over a shared visited array
    and a path buffer, carrying the distance travelled so far.  Each path
    found is emitted with its total distance; the directed navigators also
    print, for every step, the direction of the first edge in the list of
    the step's source that leads to the step's target. */
module PathEnumerator {
  import opened Common
  import opened GraphStore

  /** One emitted path and the total distance printed with it. */
  datatype Route = Route(path: seq<nat>, total: int)

  /** Every edge of es leads to a vertex of adj. */
  ghost predicate Leads<L>(adj: seq<seq<Edge<L>>>, es: seq<Edge<L>>) {
    forall k :: 0 <= k < |es| ==> es[k].dest < |adj|
  }

  // ---------------------------------------------------------------------
  // The search, as the routes it emits

  /** The routes emitted by a search that reaches u with the vertices of
      prefix on the path and total travelled: the path itself when u is
      the destination, otherwise the routes of the edges of u in list
      order. */
  function Search<L>(adj: seq<seq<Edge<L>>>, prefix: seq<nat>, u: nat, dest: nat, total: int): seq<Route>
    requires InRange(adj) && u < |adj| && Simple(prefix + [u], |adj|)
    decreases |adj| - |prefix|, 0, 0
  {
    PathFits(prefix + [u], |adj|);
    var p := prefix + [u];
    if u == dest then [Route(p, total)]
    else Explore(adj, p, adj[u], dest, total)
  }

  /** The routes emitted by the edges es out of the last vertex of p: an
      edge to a vertex already on the path is passed over. */
  function Explore<L>(adj: seq<seq<Edge<L>>>, p: seq<nat>, es: seq<Edge<L>>, dest: nat, total: int): seq<Route>
    requires InRange(adj) && Leads(adj, es) && Simple(p, |adj|)
    decreases |adj| - |p|, 1, |es|
  {
    if es == [] then []
    else
      var e := es[0];
      var here := if e.dest !in p then Search(adj, p, e.dest, dest, total + e.dist) else [];
      here + Explore(adj, p, es[1..], dest, total)
  }

  // ---------------------------------------------------------------------
  // What is emitted: exactly the simple walks that end at dest

  /** A route of a search that reaches u after prefix extends prefix by a
      simple walk from u to dest whose edge distances add up to the
      difference of the totals. */
  lemma {:induction false} SearchSound<L>(adj: seq<seq<Edge<L>>>, prefix: seq<nat>, u: nat, dest: nat, total: int, r: Route)
    requires InRange(adj) && u < |adj| && Simple(prefix + [u], |adj|)
    requires r in Search(adj, prefix, u, dest, total)
    ensures |r.path| > |prefix| && r.path[..|prefix|] == prefix && r.path[|prefix|] == u
    ensures Simple(r.path, |adj|) && r.path[|r.path| - 1] == dest
    ensures exists hops :: IsWalk(adj, r.path[|prefix|..], hops) && r.total == total + Weight(hops)
    decreases |adj| - |prefix|, 0, 0
  {
    PathFits(prefix + [u], |adj|);
    var p := prefix + [u];
    if u == dest {
      assert r == Route(p, total);
      assert r.path[|prefix|..] == [u];
      assert IsWalk(adj, r.path[|prefix|..], []);
    } else {
      ExploreSound(adj, p, adj[u], dest, total, r);
      assert p[..|prefix|] == prefix;
      assert r.path[..|prefix|] == r.path[..|p|][..|prefix|];
    }
  }

  /** A route of the edges es out of the last vertex v of p extends p by
      one of those edges followed by a simple walk to dest. */
  lemma {:induction false} ExploreSound<L>(adj: seq<seq<Edge<L>>>, p: seq<nat>, es: seq<Edge<L>>, dest: nat, total: int, r: Route)
    requires InRange(adj) && Leads(adj, es) && Simple(p, |adj|) && |p| > 0
    requires forall k :: 0 <= k < |es| ==> es[k] in adj[p[|p| - 1]]
    requires r in Explore(adj, p, es, dest, total)
    ensures |r.path| > |p| && r.path[..|p|] == p
    ensures Simple(r.path, |adj|) && r.path[|r.path| - 1] == dest
    ensures exists hops :: IsWalk(adj, r.path[|p| - 1..], hops) && r.total == total + Weight(hops)
    decreases |adj| - |p|, 1, |es|
  {
    var e := es[0];
    var here := if e.dest !in p then Search(adj, p, e.dest, dest, total + e.dist) else [];
    assert Explore(adj, p, es, dest, total) == here + Explore(adj, p, es[1..], dest, total);
    if r in here {
      SearchSound(adj, p, e.dest, dest, total + e.dist, r);
      var hops :| IsWalk(adj, r.path[|p|..], hops) && r.total == total + e.dist + Weight(hops);
      assert r.path[|p| - 1..] == [p[|p| - 1]] + r.path[|p|..];
      PrependWalk(adj, p[|p| - 1], e, r.path[|p|..], hops);
      assert IsWalk(adj, r.path[|p| - 1..], [e] + hops) && r.total == total + Weight([e] + hops);
    } else {
      ExploreSound(adj, p, es[1..], dest, total, r);
    }
  }

  /** r is among the routes of es whenever it is among those of an edge
      of es to a vertex off the path. */
  lemma {:induction false} ExploreContains<L>(adj: seq<seq<Edge<L>>>, p: seq<nat>, es: seq<Edge<L>>, dest: nat, total: int, k: nat, r: Route)
    requires InRange(adj) && Leads(adj, es) && Simple(p, |adj|)
    requires k < |es| && es[k].dest !in p
    requires Simple(p + [es[k].dest], |adj|)
    requires r in Search(adj, p, es[k].dest, dest, total + es[k].dist)
    ensures r in Explore(adj, p, es, dest, total)
    decreases k
  {
    if k > 0 {
      assert es[1..][k - 1] == es[k];
      ExploreContains(adj, p, es[1..], dest, total, k - 1, r);
    }
  }

  /** Every simple walk vs from u to dest that avoids the vertices of
      prefix and meets dest only at its end is emitted, with its weight
      added to the running total. */
  lemma {:induction false} SearchComplete<L>(adj: seq<seq<Edge<L>>>, prefix: seq<nat>, u: nat, dest: nat, total: int, vs: seq<nat>, hops: seq<Edge<L>>)
    requires InRange(adj) && u < |adj| && Simple(prefix + [u], |adj|)
    requires WalkBetween(adj, u, dest, vs, hops) && Simple(prefix + vs, |adj|)
    ensures Route(prefix + vs, total + Weight(hops)) in Search(adj, prefix, u, dest, total)
    decreases |adj| - |prefix|
  {
    PathFits(prefix + [u], |adj|);
    var p := prefix + [u];
    if u == dest {
      assert (prefix + vs)[|prefix|] == u && (prefix + vs)[|prefix| + |vs| - 1] == dest;
      assert vs == [u] && hops == [];
    } else {
      var e := hops[0];
      var v := vs[1];
      assert (prefix + vs)[|prefix|] == u && (prefix + vs)[|prefix| + 1] == v;
      assert p + vs[1..] == prefix + vs;
      assert v !in p by {
        forall i | 0 <= i < |p| ensures p[i] != v {
          assert p[i] == (prefix + vs)[i];
        }
      }
      assert Simple(p + [v], |adj|) by {
        assert p + [v] == (prefix + vs)[..|prefix| + 2];
      }
      assert WalkBetween(adj, v, dest, vs[1..], hops[1..]);
      SearchComplete(adj, p, v, dest, total + e.dist, vs[1..], hops[1..]);
      assert Weight(hops) == e.dist + Weight(hops[1..]);
      var r := Route(prefix + vs, total + Weight(hops));
      assert r in Search(adj, p, v, dest, total + e.dist);
      var k :| 0 <= k < |adj[u]| && adj[u][k] == e;
      ExploreContains(adj, p, adj[u], dest, total, k, r);
      assert Search(adj, prefix, u, dest, total) == Explore(adj, p, adj[u], dest, total);
    }
  }

  /** What findPaths promises: the routes from src to dest are exactly the
      simple paths from src to dest, each with the sum of the distances of
      edges that join its consecutive vertices.  Because such a path is
      simple, dest occurs in it only at its end. */
  lemma FoundExactlySimplePaths<L>(adj: seq<seq<Edge<L>>>, src: nat, dest: nat, r: Route)
    requires InRange(adj) && src < |adj| && dest < |adj|
    ensures r in Search(adj, [], src, dest, 0) <==>
      && |r.path| > 0 && r.path[0] == src && r.path[|r.path| - 1] == dest && Simple(r.path, |adj|)
      && exists hops :: IsWalk(adj, r.path, hops) && r.total == Weight(hops)
  {
    assert [] + [src] == [src];
    if r in Search(adj, [], src, dest, 0) {
      SearchSound(adj, [], src, dest, 0, r);
      assert r.path[0..] == r.path;
    }
    if |r.path| > 0 && r.path[0] == src && r.path[|r.path| - 1] == dest && Simple(r.path, |adj|)
       && exists hops :: IsWalk(adj, r.path, hops) && r.total == Weight(hops) {
      var hops :| IsWalk(adj, r.path, hops) && r.total == Weight(hops);
      assert [] + r.path == r.path;
      SearchComplete(adj, [], src, dest, 0, r.path, hops);
    }
  }

  // ---------------------------------------------------------------------
  // The search over the arrays

  /** The visited flags mark exactly the vertices on the path. */
  ghost predicate Mirrors(visited: seq<bool>, path: seq<nat>) {
    forall v :: 0 <= v < |visited| ==> (visited[v] <==> v in path)
  }

  /** The routes of the edges from position i on are those of edge i
      followed by those of the edges after it. */
  lemma ExploreStep<L>(adj: seq<seq<Edge<L>>>, p: seq<nat>, es: seq<Edge<L>>, i: nat, dest: nat, total: int)
    requires InRange(adj) && Leads(adj, es) && Simple(p, |adj|) && i < |es|
    ensures es[i].dest !in p ==> Simple(p + [es[i].dest], |adj|)
    ensures Explore(adj, p, es[i..], dest, total)
      == (if es[i].dest !in p then Search(adj, p, es[i].dest, dest, total + es[i].dist) else [])
         + Explore(adj, p, es[i + 1..], dest, total)
  {
    assert es[i..][0] == es[i] && es[i..][1..] == es[i + 1..];
  }

  /** Marking a vertex off the path and appending it keeps the flags in
      step with the path; unmarking it afterwards restores the flags. */
  lemma Mark(visited: seq<bool>, prefix: seq<nat>, u: nat)
    requires Mirrors(visited, prefix) && u < |visited| && Simple(prefix + [u], |visited|)
    ensures u !in prefix
    ensures Mirrors(visited[u := true], prefix + [u])
    ensures visited[u := true][u := false] == visited
  {
    forall i | 0 <= i < |prefix| ensures prefix[i] != u {
      assert (prefix + [u])[i] == prefix[i] && (prefix + [u])[|prefix|] == u;
    }
  }

  /** One edge of the loop handled: the routes gathered so far, then those
      of edge i, then those of the edges after it. */
  lemma Advance<L>(adj: seq<seq<Edge<L>>>, p: seq<nat>, es: seq<Edge<L>>, i: nat, dest: nat, total: int, routes: seq<Route>, found: seq<Route>)
    requires InRange(adj) && Leads(adj, es) && Simple(p, |adj|) && i < |es|
    requires routes + Explore(adj, p, es[i..], dest, total) == Explore(adj, p, es, dest, total)
    requires es[i].dest !in p ==> Simple(p + [es[i].dest], |adj|)
    requires found == if es[i].dest !in p then Search(adj, p, es[i].dest, dest, total + es[i].dist) else []
    ensures (routes + found) + Explore(adj, p, es[i + 1..], dest, total) == Explore(adj, p, es, dest, total)
  {
    ExploreStep(adj, p, es, i, dest, total);
    Assoc(routes, found, Explore(adj, p, es[i + 1..], dest, total));
  }

  /** DFS: mark u, append it to the path, emit the path if u is the
      destination and otherwise search on from every unvisited neighbour,
      then unmark u.  The path buffer has V slots and the path is simple,
      so the write at pathIndex stays in bounds. */
  method DFS<L(==)>(g: Graph<L>, u: nat, dest: nat, visited: array<bool>, path: array<nat>, total: int, pathIndex: nat)
    returns (routes: seq<Route>)
    requires g.Valid() && u < g.V && visited.Length == g.V && path.Length == g.V
    requires pathIndex <= path.Length && Simple(path[..pathIndex] + [u], g.V)
    requires Mirrors(visited[..], path[..pathIndex])
    modifies visited, path
    ensures visited[..] == old(visited[..])
    ensures path[..pathIndex] == old(path[..pathIndex])
    ensures routes == Search(g.adj, old(path[..pathIndex]), u, dest, total)
    decreases g.V - pathIndex, 1
  {
    PathFits(path[..pathIndex] + [u], g.V);
    ghost var prefix := path[..pathIndex];
    ghost var entry := visited[..];
    Mark(entry, prefix, u);
    visited[u] := true;
    path[pathIndex] := u;
    var index := pathIndex + 1;
    assert visited[..] == entry[u := true];
    assert path[..index] == prefix + [u];
    if u == dest {
      routes := [Route(path[..index], total)];
    } else {
      routes := Neighbours(g, g.adj[u], dest, visited, path, total, index);
    }
    visited[u] := false;
    assert visited[..] == entry[u := true][u := false];
  }

  /** The loop of DFS over the edge list es of the last vertex on the path:
      every edge is followed in list order and the routes found through it
      are gathered in that order. */
  method Neighbours<L(==)>(g: Graph<L>, es: seq<Edge<L>>, dest: nat, visited: array<bool>, path: array<nat>, total: int, index: nat)
    returns (routes: seq<Route>)
    requires g.Valid() && Leads(g.adj, es) && visited.Length == g.V && path.Length == g.V
    requires index <= path.Length && Simple(path[..index], g.V) && Mirrors(visited[..], path[..index])
    modifies visited, path
    ensures visited[..] == old(visited[..])
    ensures path[..index] == old(path[..index])
    ensures routes == Explore(g.adj, old(path[..index]), es, dest, total)
    decreases g.V - index + 1, 0
  {
    ghost var p := path[..index];
    ghost var marked := visited[..];
    routes := [];
    var i := 0;
    assert es[0..] == es;
    while i < |es|
      invariant 0 <= i <= |es|
      invariant path[..index] == p && visited[..] == marked
      invariant routes + Explore(g.adj, p, es[i..], dest, total) == Explore(g.adj, p, es, dest, total)
    {
      ExploreStep(g.adj, p, es, i, dest, total);
      var found := Follow(g, es[i], dest, visited, path, total, index, p);
      Advance(g.adj, p, es, i, dest, total, routes, found);
      routes := routes + found;
      i := i + 1;
    }
    assert es[i..] == [];
  }

  /** One step of the loop over the neighbours in DFS: the search goes on
      through e when its endpoint is not yet on the path, with the edge's
      distance added to the running total for the call and taken off again
      afterwards. */
  method Follow<L(==)>(g: Graph<L>, e: Edge<L>, dest: nat, visited: array<bool>, path: array<nat>, total: int, index: nat, ghost p: seq<nat>)
    returns (found: seq<Route>)
    requires g.Valid() && e.dest < g.V && visited.Length == g.V && path.Length == g.V
    requires index <= path.Length && path[..index] == p && Mirrors(visited[..], p)
    requires e.dest !in p ==> Simple(p + [e.dest], g.V)
    modifies visited, path
    ensures visited[..] == old(visited[..]) && path[..index] == p
    ensures found == if e.dest !in p then Search(g.adj, p, e.dest, dest, total + e.dist) else []
    decreases g.V - index, 2
  {
    var running := total;
    found := [];
    assert visited[e.dest] <==> e.dest in path[..index];
    if !visited[e.dest] {
      running := running + e.dist;
      found := DFS(g, e.dest, dest, visited, path, running, index);
      running := running - e.dist;
    }
  }

  /** findPaths: no search when an endpoint is not a vertex, otherwise a
      fresh visited array and path buffer and one search from src. */
  method FindPaths<L(==)>(g: Graph<L>, src: int, dest: int) returns (res: Option<seq<Route>>)
    requires g.Valid()
    ensures !(0 <= src < g.V && 0 <= dest < g.V) ==> res == None
    ensures 0 <= src < g.V && 0 <= dest < g.V ==> res == Some(Search(g.adj, [], src, dest, 0))
    ensures 0 <= src < g.V && src == dest ==> res == Some([Route([src], 0)])
  {
    if src < 0 || src >= g.V || dest < 0 || dest >= g.V {
      return None;
    }
    var visited := new bool[g.V];
    var path := new nat[g.V];
    var i := 0;
    while i < g.V
      invariant 0 <= i <= g.V
      invariant forall v :: 0 <= v < i ==> !visited[v]
    {
      visited[i] := false;
      i := i + 1;
    }
    assert path[..0] + [src] == [src];
    assert Mirrors(visited[..], path[..0]);
    var routes := DFS(g, src, dest, visited, path, 0, 0);
    return Some(routes);
  }

  // ---------------------------------------------------------------------
  // The direction legend of the directed navigators

  /** Some edge of the list of a leads to b. */
  ghost predicate Joined<L>(adj: seq<seq<Edge<L>>>, a: nat, b: nat) {
    a < |adj| && exists k :: 0 <= k < |adj[a]| && adj[a][k].dest == b
  }

  /** Consecutive vertices of the path are joined by some edge. */
  ghost predicate Linked<L>(adj: seq<seq<Edge<L>>>, path: seq<nat>) {
    && (forall i :: 0 <= i < |path| ==> path[i] < |adj|)
    && (forall i :: 0 <= i < |path| - 1 ==> Joined(adj, path[i], path[i + 1]))
  }

  lemma LinkedSuffix<L>(adj: seq<seq<Edge<L>>>, path: seq<nat>, i: nat)
    requires Linked(adj, path) && i <= |path|
    ensures Linked(adj, path[i..])
  {
    forall j | 0 <= j < |path[i..]| - 1 ensures Joined(adj, path[i..][j], path[i..][j + 1]) {
      assert path[i..][j] == path[i + j] && path[i..][j + 1] == path[i + j + 1];
    }
  }

  /** Every emitted path is linked, so the lookup of each step's edge
      finds one and its scan ends. */
  lemma RoutesLinked<L>(adj: seq<seq<Edge<L>>>, src: nat, dest: nat, r: Route)
    requires InRange(adj) && src < |adj| && dest < |adj|
    requires r in Search(adj, [], src, dest, 0)
    ensures Linked(adj, r.path)
  {
    FoundExactlySimplePaths(adj, src, dest, r);
    var hops :| IsWalk(adj, r.path, hops) && r.total == Weight(hops);
    forall i | 0 <= i < |r.path| - 1 ensures Joined(adj, r.path[i], r.path[i + 1]) {
      var k :| 0 <= k < |adj[r.path[i]]| && adj[r.path[i]][k] == hops[i];
    }
  }

  /** The position of the first edge of es that leads to v. */
  function FirstTo<L>(es: seq<Edge<L>>, v: nat): (k: nat)
    requires exists j :: 0 <= j < |es| && es[j].dest == v
    ensures k < |es| && es[k].dest == v
    ensures forall j :: 0 <= j < k ==> es[j].dest != v
  {
    if es[0].dest == v then 0
    else
      assert exists j :: 0 <= j < |es[1..]| && es[1..][j].dest == v by {
        var j :| 0 <= j < |es| && es[j].dest == v;
        assert es[1..][j - 1] == es[j];
      }
      1 + FirstTo(es[1..], v)
  }

  /** The tags printed between the vertices of a linked path: for each
      step, the tag of the first edge to the step's target. */
  function Turns<L>(adj: seq<seq<Edge<L>>>, path: seq<nat>): (ts: seq<L>)
    requires Linked(adj, path)
    ensures |ts| == if path == [] then 0 else |path| - 1
    decreases |path|
  {
    if |path| < 2 then []
    else
      LinkedSuffix(adj, path, 1);
      [adj[path[0]][FirstTo(adj[path[0]], path[1])].tag] + Turns(adj, path[1..])
  }

  /** The edge walk of the printing loop: advance along the list of u until
      an edge to v. */
  method FirstMatch<L>(es: seq<Edge<L>>, v: nat) returns (k: nat)
    requires exists j :: 0 <= j < |es| && es[j].dest == v
    ensures k < |es| && es[k].dest == v
    ensures forall j :: 0 <= j < k ==> es[j].dest != v
  {
    k := 0;
    while es[k].dest != v
      invariant k < |es| && forall j :: 0 <= j < k ==> es[j].dest != v
      decreases |es| - k
    {
      k := k + 1;
    }
  }

  /** The legend printed with one path: one tag per step, in order. */
  method Legend<L(==)>(g: Graph<L>, path: seq<nat>) returns (ts: seq<L>)
    requires g.Valid() && Linked(g.adj, path)
    ensures ts == Turns(g.adj, path)
  {
    ts := [];
    var i := 0;
    assert path[0..] == path;
    while i + 1 < |path|
      invariant 0 <= i <= |path| && Linked(g.adj, path[i..])
      invariant ts + Turns(g.adj, path[i..]) == Turns(g.adj, path)
      decreases |path| - i
    {
      ghost var rest := path[i..];
      assert rest[0] == path[i] && rest[1] == path[i + 1] && rest[1..] == path[i + 1..];
      assert Joined(g.adj, rest[0], rest[1]);
      var k := FirstMatch(g.adj[path[i]], path[i + 1]);
      LinkedSuffix(g.adj, path, i + 1);
      assert Turns(g.adj, rest) == [g.adj[path[i]][k].tag] + Turns(g.adj, path[i + 1..]);
      Assoc(ts, [g.adj[path[i]][k].tag], Turns(g.adj, path[i + 1..]));
      ts := ts + [g.adj[path[i]][k].tag];
      i := i + 1;
    }
  }
}
