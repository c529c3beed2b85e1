/** dijkstra of the directed navigator: the O(V^2) shortest-path solver
    with a visited array, a parent array and the distance table, where
    vertices not yet reached carry the sentinel distance 10000; and
    printShortestPath, which follows parent links back to a root.

    The rounds are specified as functions on a State value; the method
    Dijkstra, over arrays, is proved to compute exactly that State, and
    what dijkstra promises is proved about the State. */
module ShortestPaths {
  import opened Common
  import opened GraphStore

  /** The sentinel: dijkstra starts every vertex but the source at this
      distance, minDistance only selects a vertex whose distance is below
      it, and no edge is relaxed out of a vertex at it. */
  const Unreached: int := 10000

  /** The tables of dijkstra, plus the order in which vertices were
      settled (bookkeeping of the model, not a table of the program). */
  datatype State = State(dist: seq<int>, parent: seq<int>, visited: seq<bool>, settled: seq<nat>)

  ghost predicate Sized(n: nat, s: State) {
    |s.dist| == n && |s.parent| == n && |s.visited| == n
  }

  // ---------------------------------------------------------------------
  // The rounds, as functions

  /** The tables after the initialisation loop and dist[src] = 0. */
  function Start(n: nat, src: nat): (s: State)
    requires src < n
    ensures Sized(n, s) && s.settled == []
  {
    State(seq(n, v => if v == src then 0 else Unreached), seq(n, _ => -1), seq(n, _ => false), [])
  }

  /** minDistance over the first k vertices: the first unvisited vertex
      whose distance is below the sentinel and below that of every
      earlier candidate, or None when no unvisited vertex is below the
      sentinel. */
  function Lightest(dist: seq<int>, visited: seq<bool>, k: nat): (r: Option<nat>)
    requires |visited| == |dist| && k <= |dist|
    ensures r.Some? ==> r.value < k && !visited[r.value] && dist[r.value] < Unreached
    ensures r.Some? ==> forall j :: 0 <= j < k && !visited[j] ==> dist[r.value] <= dist[j]
    ensures r.Some? ==> forall j :: 0 <= j < r.value && !visited[j] ==> dist[r.value] < dist[j]
    ensures r.None? ==> forall j :: 0 <= j < k && !visited[j] ==> Unreached <= dist[j]
  {
    if k == 0 then None
    else
      var best := Lightest(dist, visited, k - 1);
      var bound := if best.Some? then dist[best.value] else Unreached;
      if !visited[k - 1] && dist[k - 1] < bound then Some(k - 1) else best
  }

  /** One pass of the relaxation loop: an edge u->v lowers the distance of
      an unvisited v, and makes u its parent, when it gives a shorter
      distance from a reached u. */
  function Relax<L>(s: State, u: nat, e: Edge<L>): (t: State)
    requires Sized(|s.dist|, s) && u < |s.dist| && e.dest < |s.dist|
    ensures Sized(|s.dist|, t) && t.visited == s.visited && t.settled == s.settled
  {
    var v := e.dest;
    if !s.visited[v] && s.dist[u] != Unreached && s.dist[u] + e.dist < s.dist[v]
    then s.(dist := s.dist[v := s.dist[u] + e.dist], parent := s.parent[v := u])
    else s
  }

  /** The relaxation loop over the edges of u from position i on. */
  function RelaxFrom<L>(adj: seq<seq<Edge<L>>>, s: State, u: nat, i: nat): (t: State)
    requires InRange(adj) && Sized(|adj|, s) && u < |adj| && i <= |adj[u]|
    ensures Sized(|adj|, t) && t.visited == s.visited && t.settled == s.settled
    decreases |adj[u]| - i
  {
    if i == |adj[u]| then s else RelaxFrom(adj, Relax(s, u, adj[u][i]), u, i + 1)
  }

  /** visited[u] = true. */
  function Visit(s: State, u: nat): (t: State)
    requires u < |s.visited|
    ensures t.dist == s.dist && t.parent == s.parent && |t.visited| == |s.visited| && t.settled == s.settled + [u]
    ensures forall v :: 0 <= v < |s.visited| ==> (t.visited[v] <==> s.visited[v] || v == u)
  {
    s.(visited := s.visited[u := true], settled := s.settled + [u])
  }

  /** One round: settle the selected vertex u and relax its edges. */
  function Settle<L>(adj: seq<seq<Edge<L>>>, s: State, u: nat): (t: State)
    requires InRange(adj) && Sized(|adj|, s) && u < |adj|
    ensures Sized(|adj|, t) && t.settled == s.settled + [u] && t.visited == s.visited[u := true]
  {
    RelaxFrom(adj, Visit(s, u), u, 0)
  }

  /** At most c more rounds; the rounds stop early when no vertex can be
      selected. */
  function Rounds<L>(adj: seq<seq<Edge<L>>>, s: State, c: nat): (t: State)
    requires InRange(adj) && Sized(|adj|, s)
    ensures Sized(|adj|, t)
    decreases c
  {
    if c == 0 then s
    else match Lightest(s.dist, s.visited, |adj|)
      case None => s
      case Some(u) => Rounds(adj, Settle(adj, s, u), c - 1)
  }

  /** The tables dijkstra leaves: V - 1 rounds from the initial tables. */
  function Shortest<L>(adj: seq<seq<Edge<L>>>, src: nat): (s: State)
    requires InRange(adj) && src < |adj|
    ensures Sized(|adj|, s)
  {
    Rounds(adj, Start(|adj|, src), |adj| - 1)
  }

  // ---------------------------------------------------------------------
  // The invariant of the rounds

  /** Position of v in the settle order, or the length of the order when v
      is not settled. */
  function Rank(order: seq<nat>, v: nat): (r: nat)
    ensures r <= |order| && (r < |order| <==> v in order)
    ensures r < |order| ==> order[r] == v
  {
    if order == [] then 0 else if order[0] == v then 0 else 1 + Rank(order[1..], v)
  }

  lemma {:induction false} RankAppend(order: seq<nat>, x: nat, v: nat)
    ensures Rank(order + [x], v) == if v in order then Rank(order, v) else if v == x then |order| else |order| + 1
  {
    if order != [] {
      assert (order + [x])[1..] == order[1..] + [x];
      RankAppend(order[1..], x, v);
    }
  }

  /** The settle order lists the visited vertices, once each. */
  ghost predicate Tracked(n: nat, s: State) {
    && Sized(n, s)
    && (forall i :: 0 <= i < |s.settled| ==> s.settled[i] < n)
    && Distinct(s.settled)
    && (forall v :: 0 <= v < n ==> (s.visited[v] <==> v in s.settled))
  }

  /** No distance is above the sentinel, and settled ones are below it. */
  ghost predicate Capped(s: State)
    requires Sized(|s.dist|, s)
  {
    forall v :: 0 <= v < |s.dist| ==> s.dist[v] <= Unreached && (s.visited[v] ==> s.dist[v] < Unreached)
  }

  /** The source is at distance 0 with no parent, it is the first vertex
      settled, and every other vertex without a parent is unreached. */
  ghost predicate Rooted(src: nat, s: State)
    requires Sized(|s.dist|, s)
  {
    && src < |s.dist| && s.dist[src] == 0 && s.parent[src] == -1
    && (s.settled != [] ==> s.visited[src])
    && (forall v :: 0 <= v < |s.dist| && v != src && s.parent[v] == -1 ==> s.dist[v] == Unreached)
  }

  /** The parent p of v was settled before v, and v is reached by an edge
      p->v whose distance makes up the difference. */
  ghost predicate FedBy<L>(adj: seq<seq<Edge<L>>>, s: State, v: nat)
    requires Sized(|adj|, s) && v < |adj|
  {
    var p := s.parent[v];
    && 0 <= p < |adj| && s.visited[p] && Rank(s.settled, p) < Rank(s.settled, v) && s.dist[v] < Unreached
    && exists k :: 0 <= k < |adj[p]| && adj[p][k].dest == v && s.dist[v] == s.dist[p] + adj[p][k].dist
  }

  ghost predicate Tree<L>(adj: seq<seq<Edge<L>>>, s: State)
    requires Sized(|adj|, s)
  {
    forall v :: 0 <= v < |adj| && s.parent[v] != -1 ==> FedBy(adj, s, v)
  }

  /** The first i edges of a are relaxed: none would lower a distance. */
  ghost predicate Relaxed<L>(adj: seq<seq<Edge<L>>>, s: State, a: nat, i: nat)
    requires InRange(adj) && Sized(|adj|, s) && a < |adj| && i <= |adj[a]|
  {
    forall k :: 0 <= k < i ==> s.dist[adj[a][k].dest] <= s.dist[a] + adj[a][k].dist
  }

  ghost predicate AllRelaxed<L>(adj: seq<seq<Edge<L>>>, s: State)
    requires InRange(adj) && Sized(|adj|, s)
  {
    forall a :: 0 <= a < |adj| && s.visited[a] ==> Relaxed(adj, s, a, |adj[a]|)
  }

  /** No settled vertex is farther than an unsettled one. */
  ghost predicate Ordered(s: State)
    requires Sized(|s.dist|, s)
  {
    forall a, b :: 0 <= a < |s.dist| && 0 <= b < |s.dist| && s.visited[a] && !s.visited[b] ==> s.dist[a] <= s.dist[b]
  }

  /** The invariant kept between rounds; the last two parts need edges of
      non-negative distance. */
  ghost predicate Inv<L>(adj: seq<seq<Edge<L>>>, src: nat, s: State) {
    && InRange(adj) && Tracked(|adj|, s) && Capped(s) && Rooted(src, s) && Tree(adj, s)
    && (NonNegative(adj) ==> AllRelaxed(adj, s) && Ordered(s))
  }

  /** No settled vertex is farther than u. */
  ghost predicate Farthest(t: State, u: nat)
    requires Sized(|t.dist|, t) && u < |t.dist|
  {
    forall a :: 0 <= a < |t.dist| && t.visited[a] ==> t.dist[a] <= t.dist[u]
  }

  /** Every settled vertex but u has all its edges relaxed. */
  ghost predicate OthersRelaxed<L>(adj: seq<seq<Edge<L>>>, t: State, u: nat)
    requires InRange(adj) && Sized(|adj|, t)
  {
    forall a :: 0 <= a < |adj| && t.visited[a] && a != u ==> Relaxed(adj, t, a, |adj[a]|)
  }

  /** The invariant inside a round that settled u, once the first i edges
      of u have been relaxed. */
  ghost predicate Partial<L>(adj: seq<seq<Edge<L>>>, src: nat, t: State, u: nat, i: nat) {
    && InRange(adj) && Tracked(|adj|, t) && Capped(t) && Rooted(src, t) && Tree(adj, t)
    && u < |adj| && i <= |adj[u]| && t.visited[u]
    && (NonNegative(adj) ==> Ordered(t) && Farthest(t, u) && OthersRelaxed(adj, t, u) && Relaxed(adj, t, u, i))
  }

  lemma StartInv<L>(adj: seq<seq<Edge<L>>>, src: nat)
    requires InRange(adj) && src < |adj|
    ensures Inv(adj, src, Start(|adj|, src))
  {
  }

  lemma VisitTracked(n: nat, s: State, u: nat)
    requires Tracked(n, s) && u < n && !s.visited[u]
    ensures Tracked(n, Visit(s, u))
  {
    var q, t := s.settled, Visit(s, u);
    assert u !in q;
    forall i, j | 0 <= i < j < |t.settled| ensures t.settled[i] != t.settled[j] {
      assert t.settled[i] == q[i];
      if j < |q| {
        assert t.settled[j] == q[j];
      }
    }
  }

  /** The first vertex settled is the source: before any round every
      other vertex is unreached. */
  lemma VisitRooted<L>(adj: seq<seq<Edge<L>>>, src: nat, s: State, u: nat)
    requires Tracked(|adj|, s) && Rooted(src, s) && Tree(adj, s) && u < |adj| && s.dist[u] < Unreached
    ensures Rooted(src, Visit(s, u))
  {
    if s.settled == [] {
      assert s.parent[u] == -1;
    }
  }

  /** Settling u moves no rank of a settled vertex and lowers none. */
  lemma VisitTree<L>(adj: seq<seq<Edge<L>>>, s: State, u: nat)
    requires Tracked(|adj|, s) && Tree(adj, s) && u < |adj|
    ensures Tree(adj, Visit(s, u))
  {
    var t := Visit(s, u);
    forall x | 0 <= x < |adj| && t.parent[x] != -1 ensures FedBy(adj, t, x) {
      assert FedBy(adj, s, x);
      RankAppend(s.settled, u, s.parent[x] as nat);
      RankAppend(s.settled, u, x);
    }
  }

  /** The selected vertex is no farther than any unsettled one, so it is
      the farthest settled vertex once settled. */
  lemma VisitOrder<L>(adj: seq<seq<Edge<L>>>, s: State, u: nat)
    requires InRange(adj) && Sized(|adj|, s) && u < |adj| && !s.visited[u]
    requires Ordered(s) && AllRelaxed(adj, s)
    requires forall j :: 0 <= j < |adj| && !s.visited[j] ==> s.dist[u] <= s.dist[j]
    ensures var t := Visit(s, u); Ordered(t) && Farthest(t, u) && OthersRelaxed(adj, t, u) && Relaxed(adj, t, u, 0)
  {
    var t := Visit(s, u);
    forall a | 0 <= a < |adj| && t.visited[a] && a != u ensures Relaxed(adj, t, a, |adj[a]|) {
      assert Relaxed(adj, s, a, |adj[a]|);
    }
  }

  /** Settling the vertex minDistance selects keeps the invariant, with no
      edge of it relaxed yet. */
  lemma VisitKeeps<L>(adj: seq<seq<Edge<L>>>, src: nat, s: State, u: nat)
    requires Inv(adj, src, s) && Lightest(s.dist, s.visited, |adj|) == Some(u)
    ensures Partial(adj, src, Visit(s, u), u, 0)
  {
    VisitTracked(|adj|, s, u);
    VisitRooted(adj, src, s, u);
    VisitTree(adj, s, u);
    if NonNegative(adj) {
      VisitOrder(adj, s, u);
    }
  }

  /** Relaxing an edge of a settled vertex changes at most the distance
      and parent of one unsettled vertex, and only lowers the distance. */
  lemma RelaxLowers<L>(t: State, u: nat, e: Edge<L>, x: nat)
    requires Sized(|t.dist|, t) && u < |t.dist| && e.dest < |t.dist| && x < |t.dist| && t.visited[u]
    ensures var t' := Relax(t, u, e);
      && t'.dist[x] <= t.dist[x]
      && (t.visited[x] || x != e.dest ==> t'.dist[x] == t.dist[x] && t'.parent[x] == t.parent[x])
  {
  }

  lemma RelaxCore<L>(adj: seq<seq<Edge<L>>>, src: nat, t: State, u: nat, i: nat)
    requires InRange(adj) && Tracked(|adj|, t) && Capped(t) && Rooted(src, t)
    requires u < |adj| && i < |adj[u]| && t.visited[u]
    ensures var t' := Relax(t, u, adj[u][i]); Tracked(|adj|, t') && Capped(t') && Rooted(src, t')
  {
    assert u in t.settled;
  }

  /** The vertex whose distance an edge of u lowers gets u, settled
      before it, as parent. */
  lemma RelaxTree<L>(adj: seq<seq<Edge<L>>>, t: State, u: nat, i: nat)
    requires InRange(adj) && Tracked(|adj|, t) && Capped(t) && Tree(adj, t)
    requires u < |adj| && i < |adj[u]| && t.visited[u]
    ensures Tree(adj, Relax(t, u, adj[u][i]))
  {
    var e := adj[u][i];
    var v := e.dest;
    var t' := Relax(t, u, e);
    forall x | 0 <= x < |adj| && t'.parent[x] != -1 ensures FedBy(adj, t', x) {
      RelaxLowers(t, u, e, x);
      if x == v && t' != t {
        assert v !in t.settled && u in t.settled;
        assert adj[u][i].dest == v && t'.dist[v] == t'.dist[u] + adj[u][i].dist;
      } else {
        assert FedBy(adj, t, x);
        var p := t.parent[x] as nat;
        RelaxLowers(t, u, e, p);
        var k :| 0 <= k < |adj[p]| && adj[p][k].dest == x && t.dist[x] == t.dist[p] + adj[p][k].dist;
        assert t'.dist[x] == t'.dist[p] + adj[p][k].dist;
      }
    }
  }

  /** With non-negative distances a lowered distance stays no smaller
      than that of u, the farthest settled vertex. */
  lemma RelaxOrder<L>(adj: seq<seq<Edge<L>>>, t: State, u: nat, i: nat)
    requires InRange(adj) && Sized(|adj|, t) && NonNegative(adj) && u < |adj| && i < |adj[u]| && t.visited[u]
    requires Ordered(t) && Farthest(t, u)
    ensures var t' := Relax(t, u, adj[u][i]); Ordered(t') && Farthest(t', u)
  {
    assert adj[u][i].dist >= 0;
  }

  lemma RelaxOthers<L>(adj: seq<seq<Edge<L>>>, t: State, u: nat, i: nat)
    requires InRange(adj) && Sized(|adj|, t) && u < |adj| && i < |adj[u]| && t.visited[u]
    requires OthersRelaxed(adj, t, u)
    ensures OthersRelaxed(adj, Relax(t, u, adj[u][i]), u)
  {
    var e := adj[u][i];
    var t' := Relax(t, u, e);
    forall a | 0 <= a < |adj| && t'.visited[a] && a != u ensures Relaxed(adj, t', a, |adj[a]|) {
      assert Relaxed(adj, t, a, |adj[a]|);
      RelaxLowers(t, u, e, a);
      forall k | 0 <= k < |adj[a]| ensures t'.dist[adj[a][k].dest] <= t'.dist[a] + adj[a][k].dist {
        RelaxLowers(t, u, e, adj[a][k].dest);
      }
    }
  }

  /** Edge i of u is relaxed once it has been looked at. */
  lemma RelaxOwn<L>(adj: seq<seq<Edge<L>>>, t: State, u: nat, i: nat)
    requires InRange(adj) && Sized(|adj|, t) && NonNegative(adj) && u < |adj| && i < |adj[u]| && t.visited[u]
    requires Capped(t) && Farthest(t, u) && Relaxed(adj, t, u, i)
    ensures Relaxed(adj, Relax(t, u, adj[u][i]), u, i + 1)
  {
    var e := adj[u][i];
    var t' := Relax(t, u, e);
    assert e.dist >= 0;
    RelaxLowers(t, u, e, u);
    forall k | 0 <= k < i + 1 ensures t'.dist[adj[u][k].dest] <= t'.dist[u] + adj[u][k].dist {
      RelaxLowers(t, u, e, adj[u][k].dest);
    }
  }

  lemma RelaxKeeps<L>(adj: seq<seq<Edge<L>>>, src: nat, t: State, u: nat, i: nat)
    requires Partial(adj, src, t, u, i) && i < |adj[u]|
    ensures Partial(adj, src, Relax(t, u, adj[u][i]), u, i + 1)
  {
    RelaxCore(adj, src, t, u, i);
    RelaxTree(adj, t, u, i);
    if NonNegative(adj) {
      RelaxOrder(adj, t, u, i);
      RelaxOthers(adj, t, u, i);
      RelaxOwn(adj, t, u, i);
    }
  }

  lemma {:induction false} RelaxFromKeeps<L>(adj: seq<seq<Edge<L>>>, src: nat, t: State, u: nat, i: nat)
    requires Partial(adj, src, t, u, i)
    ensures Partial(adj, src, RelaxFrom(adj, t, u, i), u, |adj[u]|)
    decreases |adj[u]| - i
  {
    if i < |adj[u]| {
      RelaxKeeps(adj, src, t, u, i);
      RelaxFromKeeps(adj, src, Relax(t, u, adj[u][i]), u, i + 1);
    }
  }

  /** A round keeps the invariant. */
  lemma SettleKeeps<L>(adj: seq<seq<Edge<L>>>, src: nat, s: State, u: nat)
    requires Inv(adj, src, s) && Lightest(s.dist, s.visited, |adj|) == Some(u)
    ensures Inv(adj, src, Settle(adj, s, u))
  {
    VisitKeeps(adj, src, s, u);
    RelaxFromKeeps(adj, src, Visit(s, u), u, 0);
  }

  /** One round of Rounds, with the count of rounds left afterwards. */
  lemma RoundsStep<L>(adj: seq<seq<Edge<L>>>, s: State, c: nat, u: nat) returns (rest: nat)
    requires InRange(adj) && Sized(|adj|, s) && 0 < c && Lightest(s.dist, s.visited, |adj|) == Some(u)
    ensures rest + 1 == c && Rounds(adj, s, c) == Rounds(adj, Settle(adj, s, u), rest)
  {
    rest := c - 1;
  }

  /** The rounds keep the invariant. */
  lemma {:induction false} RoundsKeep<L>(adj: seq<seq<Edge<L>>>, src: nat, s: State, c: nat, r: State)
    requires Inv(adj, src, s) && r == Rounds(adj, s, c)
    ensures Inv(adj, src, r)
    decreases c
  {
    if c > 0 {
      match Lightest(s.dist, s.visited, |adj|)
      case None =>
      case Some(u) =>
        var rest := RoundsStep(adj, s, c, u);
        SettleKeeps(adj, src, s, u);
        RoundsKeep(adj, src, Settle(adj, s, u), rest, r);
    }
  }

  /** The rounds end either with no vertex left to select or after
      settling one vertex per round. */
  lemma {:induction false} RoundsEnd<L>(adj: seq<seq<Edge<L>>>, s: State, c: nat, r: State)
    requires InRange(adj) && Sized(|adj|, s) && r == Rounds(adj, s, c)
    ensures Lightest(r.dist, r.visited, |adj|).None? || |r.settled| == |s.settled| + c
    decreases c
  {
    if c > 0 {
      match Lightest(s.dist, s.visited, |adj|)
      case None =>
      case Some(u) =>
        var rest := RoundsStep(adj, s, c, u);
        RoundsEnd(adj, Settle(adj, s, u), rest, r);
    }
  }

  /** With all vertices but one settled, two unsettled vertices are the
      same vertex. */
  lemma FewLeft(n: nat, s: State, x: nat, y: nat)
    requires Tracked(n, s) && |s.settled| + 1 == n && x < n && y < n && !s.visited[x] && !s.visited[y]
    ensures x == y
  {
    var done := set v | v in s.settled;
    DistinctCard(s.settled);
    OnlyOneLeft(done, n, x, y);
  }

  /** When the rounds are over, all unsettled vertices are at the same
      distance: either none is below the sentinel, or only one is left. */
  lemma Level<L>(adj: seq<seq<Edge<L>>>, src: nat, x: nat, y: nat)
    requires InRange(adj) && src < |adj| && x < |adj| && y < |adj|
    requires !Shortest(adj, src).visited[x] && !Shortest(adj, src).visited[y]
    ensures Shortest(adj, src).dist[x] == Shortest(adj, src).dist[y]
  {
    var r := Shortest(adj, src);
    var start := Start(|adj|, src);
    RoundsEnd(adj, start, |adj| - 1, r);
    ShortestCounted(adj, src, r);
    if Lightest(r.dist, r.visited, |adj|).None? {
      assert r.dist[x] == Unreached && r.dist[y] == Unreached;
    } else {
      FewLeft(|adj|, r, x, y);
    }
  }

  /** The bookkeeping part of the invariant, on its own. */
  lemma ShortestCounted<L>(adj: seq<seq<Edge<L>>>, src: nat, s: State)
    requires InRange(adj) && src < |adj| && s == Shortest(adj, src)
    ensures Tracked(|adj|, s) && Capped(s)
  {
    ShortestInv(adj, src, s);
  }

  lemma ShortestInv<L>(adj: seq<seq<Edge<L>>>, src: nat, s: State)
    requires InRange(adj) && src < |adj| && s == Shortest(adj, src)
    ensures Inv(adj, src, s)
  {
    StartInv(adj, src);
    RoundsKeep(adj, src, Start(|adj|, src), |adj| - 1, s);
  }

  // ---------------------------------------------------------------------
  // What dijkstra promises

  /** The edges and vertices after position j of a walk form a walk. */
  lemma WalkSuffix<L>(adj: seq<seq<Edge<L>>>, vs: seq<nat>, hops: seq<Edge<L>>, j: nat)
    requires IsWalk(adj, vs, hops) && j < |vs|
    ensures IsWalk(adj, vs[j..], hops[j..])
  {
    forall i | 0 <= i < |hops[j..]| ensures hops[j..][i] in adj[vs[j..][i]] && hops[j..][i].dest == vs[j..][i + 1] {
      assert hops[j..][i] == hops[j + i] && vs[j..][i] == vs[j + i] && vs[j..][i + 1] == vs[j + i + 1];
    }
  }

  /** Along a walk from the source whose first i vertices are settled, the
      distance of vertex i is at most the weight of the walk up to it. */
  lemma {:induction false} PrefixBound<L>(adj: seq<seq<Edge<L>>>, src: nat, s: State, vs: seq<nat>, hops: seq<Edge<L>>, i: nat)
    requires Inv(adj, src, s) && NonNegative(adj) && IsWalk(adj, vs, hops) && vs[0] == src
    requires i < |vs| && forall j :: 0 <= j < i ==> s.visited[vs[j]]
    ensures s.dist[vs[i]] <= Weight(hops[..i])
  {
    if i > 0 {
      PrefixBound(adj, src, s, vs, hops, i - 1);
      var a, e := vs[i - 1], hops[i - 1];
      assert Relaxed(adj, s, a, |adj[a]|);
      var k :| 0 <= k < |adj[a]| && adj[a][k] == e;
      assert s.dist[vs[i]] <= s.dist[a] + e.dist;
      WeightSplit(hops[..i], i - 1);
      assert hops[..i][..i - 1] == hops[..i - 1] && hops[..i][i - 1..] == [e];
    }
  }

  /** Optimality: with non-negative distances, no walk from the source to
      v is shorter than the distance dijkstra leaves for v. */
  lemma Optimal<L>(adj: seq<seq<Edge<L>>>, src: nat, v: nat, vs: seq<nat>, hops: seq<Edge<L>>)
    requires InRange(adj) && src < |adj| && NonNegative(adj)
    requires WalkBetween(adj, src, v, vs, hops)
    ensures Shortest(adj, src).dist[v] <= Weight(hops)
  {
    var s := Shortest(adj, src);
    ShortestInv(adj, src, s);
    var last := |vs| - 1;
    var j := 0;
    while j < last && s.visited[vs[j]]
      invariant 0 <= j <= last && forall m :: 0 <= m < j ==> s.visited[vs[m]]
    {
      j := j + 1;
    }
    PrefixBound(adj, src, s, vs, hops, j);
    WeightSplit(hops, j);
    WalkSuffix(adj, vs, hops, j);
    WeightNonNegative(adj, vs[j..], hops[j..]);
    if j == last {
      assert hops[..j] == hops;
    } else if !s.visited[v] {
      Level(adj, src, vs[j], v);
    }
  }

  /** Distances only go down in a round, and a settled vertex keeps its
      distance. */
  lemma {:induction false} RelaxFromLowers<L>(adj: seq<seq<Edge<L>>>, s: State, u: nat, i: nat, v: nat)
    requires InRange(adj) && Sized(|adj|, s) && u < |adj| && i <= |adj[u]| && v < |adj|
    ensures RelaxFrom(adj, s, u, i).dist[v] <= s.dist[v]
    ensures s.visited[v] ==> RelaxFrom(adj, s, u, i).dist[v] == s.dist[v]
    decreases |adj[u]| - i
  {
    if i < |adj[u]| {
      RelaxFromLowers(adj, Relax(s, u, adj[u][i]), u, i + 1, v);
    }
  }

  lemma SettleLowers<L>(adj: seq<seq<Edge<L>>>, s: State, u: nat, v: nat)
    requires InRange(adj) && Sized(|adj|, s) && u < |adj| && v < |adj|
    ensures Settle(adj, s, u).dist[v] <= s.dist[v]
    ensures s.visited[v] ==> Settle(adj, s, u).dist[v] == s.dist[v]
  {
    RelaxFromLowers(adj, Visit(s, u), u, 0, v);
  }

  // ---------------------------------------------------------------------
  // printShortestPath

  /** Every parent link goes to a vertex of lower rank. */
  ghost predicate Ranked(parent: seq<int>, rank: seq<nat>) {
    && |rank| == |parent|
    && forall v :: 0 <= v < |parent| && parent[v] != -1 ==> 0 <= parent[v] < |parent| && rank[parent[v]] < rank[v]
  }

  /** printShortestPath: the route printed for v, from the root of its
      parent chain to v. */
  function RouteTo(parent: seq<int>, ghost rank: seq<nat>, v: nat): (r: seq<nat>)
    requires Ranked(parent, rank) && v < |parent|
    ensures |r| >= 1 && forall i :: 0 <= i < |r| ==> r[i] < |parent|
    ensures r[|r| - 1] == v && parent[r[0]] == -1
    ensures forall i :: 0 <= i < |r| - 1 ==> parent[r[i + 1]] == r[i]
    decreases rank[v]
  {
    if parent[v] == -1 then [v] else RouteTo(parent, rank, parent[v] as nat) + [v]
  }

  function Ranks(order: seq<nat>, n: nat): (rank: seq<nat>)
    ensures |rank| == n && forall v :: 0 <= v < n ==> rank[v] == Rank(order, v)
  {
    seq(n, v requires 0 <= v < n => Rank(order, v))
  }

  /** The parent links dijkstra leaves go to vertices settled earlier, so
      printShortestPath always reaches a root. */
  lemma ParentsSettledFirst<L>(adj: seq<seq<Edge<L>>>, src: nat)
    requires InRange(adj) && src < |adj|
    ensures var s := Shortest(adj, src); Ranked(s.parent, Ranks(s.settled, |adj|))
  {
    var s := Shortest(adj, src);
    ShortestInv(adj, src, s);
    forall v | 0 <= v < |adj| && s.parent[v] != -1
      ensures 0 <= s.parent[v] < |adj| && Rank(s.settled, s.parent[v] as nat) < Rank(s.settled, v)
    {
      assert FedBy(adj, s, v);
    }
  }

  /** Every parent link of a reached vertex is an edge of the graph
      that accounts for the difference in distance. */
  lemma ParentEdge<L>(adj: seq<seq<Edge<L>>>, src: nat, v: nat)
    requires InRange(adj) && src < |adj| && v < |adj| && Shortest(adj, src).parent[v] != -1
    ensures var s := Shortest(adj, src); var p := s.parent[v];
      && 0 <= p < |adj| && s.visited[p]
      && exists k :: 0 <= k < |adj[p]| && adj[p][k].dest == v && s.dist[v] == s.dist[p] + adj[p][k].dist
  {
    ShortestInv(adj, src, Shortest(adj, src));
    assert FedBy(adj, Shortest(adj, src), v);
  }

  /** The route of a vertex below the sentinel starts at the source and
      is a walk whose weight is the vertex's distance. */
  lemma {:induction false} RouteWalk<L>(adj: seq<seq<Edge<L>>>, src: nat, s: State, v: nat)
    requires InRange(adj) && Sized(|adj|, s) && Capped(s) && Rooted(src, s) && Tree(adj, s)
    requires v < |adj| && s.dist[v] < Unreached && Ranked(s.parent, Ranks(s.settled, |adj|))
    ensures var r := RouteTo(s.parent, Ranks(s.settled, |adj|), v);
      r[0] == src && exists hops :: IsWalk(adj, r, hops) && Weight(hops) == s.dist[v]
    decreases Rank(s.settled, v)
  {
    var rank := Ranks(s.settled, |adj|);
    if s.parent[v] == -1 {
      assert v == src;
      assert IsWalk(adj, [v], []) && Weight<L>([]) == s.dist[v];
    } else {
      assert FedBy(adj, s, v);
      var p := s.parent[v] as nat;
      var k :| 0 <= k < |adj[p]| && adj[p][k].dest == v && s.dist[v] == s.dist[p] + adj[p][k].dist;
      RouteWalk(adj, src, s, p);
      var r' := RouteTo(s.parent, rank, p);
      var hops' :| IsWalk(adj, r', hops') && Weight(hops') == s.dist[p];
      var e := adj[p][k];
      assert e in adj[r'[|r'| - 1]];
      ExtendWalk(adj, r', hops', e);
      assert r' + [e.dest] == RouteTo(s.parent, rank, v);
      assert Weight(hops' + [e]) == s.dist[v];
    }
  }

  /** Soundness: the route printed for a vertex below the sentinel is a
      walk from the source whose weight is the distance printed. */
  lemma Sound<L>(adj: seq<seq<Edge<L>>>, src: nat, v: nat)
    requires InRange(adj) && src < |adj| && v < |adj| && Shortest(adj, src).dist[v] < Unreached
    ensures var s := Shortest(adj, src); Ranked(s.parent, Ranks(s.settled, |adj|))
    ensures var s := Shortest(adj, src); var r := RouteTo(s.parent, Ranks(s.settled, |adj|), v);
      r[0] == src && exists hops :: IsWalk(adj, r, hops) && Weight(hops) == s.dist[v]
  {
    var s := Shortest(adj, src);
    ShortestInv(adj, src, s);
    ParentsSettledFirst(adj, src);
    RouteWalk(adj, src, s, v);
  }

  /** A vertex left at the sentinel has no parent: its route is the vertex
      alone, printed with distance 10000. */
  lemma Unreachable<L>(adj: seq<seq<Edge<L>>>, src: nat, v: nat)
    requires InRange(adj) && src < |adj| && v < |adj| && Shortest(adj, src).dist[v] == Unreached
    ensures var s := Shortest(adj, src); Ranked(s.parent, Ranks(s.settled, |adj|))
    ensures var s := Shortest(adj, src); RouteTo(s.parent, Ranks(s.settled, |adj|), v) == [v]
  {
    var s := Shortest(adj, src);
    ShortestInv(adj, src, s);
    ParentsSettledFirst(adj, src);
    assert s.parent[v] == -1;
  }

  // ---------------------------------------------------------------------
  // The program, over arrays

  /** minDistance: scan the vertices in index order, keeping the smallest
      distance seen below the sentinel and its vertex. */
  method MinDistance(dist: array<int>, visited: array<bool>) returns (r: Option<nat>)
    requires dist.Length == visited.Length
    ensures r == Lightest(dist[..], visited[..], dist.Length)
  {
    var min := Unreached;
    r := None;
    var v := 0;
    while v < dist.Length
      invariant 0 <= v <= dist.Length
      invariant r == Lightest(dist[..], visited[..], v)
      invariant min == if r.Some? then dist[r.value] else Unreached
    {
      if !visited[v] && dist[v] < min {
        min := dist[v];
        r := Some(v);
      }
      v := v + 1;
    }
  }

  /** The inner loop of dijkstra: walk the adjacency list of u and lower
      every unsettled neighbour reached more cheaply through u. */
  method RelaxEdges<L(==)>(g: Graph<L>, u: nat, dist: array<int>, parent: array<int>, visited: array<bool>, ghost settled: seq<nat>)
    requires g.Valid() && u < g.V && dist != parent
    requires dist.Length == g.V && parent.Length == g.V && visited.Length == g.V
    modifies dist, parent
    ensures State(dist[..], parent[..], visited[..], settled)
      == RelaxFrom(g.adj, State(old(dist[..]), old(parent[..]), visited[..], settled), u, 0)
  {
    ghost var start := State(dist[..], parent[..], visited[..], settled);
    var es := g.adj[u];
    var k := 0;
    while k < |es|
      invariant 0 <= k <= |es|
      invariant RelaxFrom(g.adj, State(dist[..], parent[..], visited[..], settled), u, k) == RelaxFrom(g.adj, start, u, 0)
    {
      ghost var cur := State(dist[..], parent[..], visited[..], settled);
      var v := es[k].dest;
      if !visited[v] && dist[u] != Unreached && dist[u] + es[k].dist < dist[v] {
        dist[v] := dist[u] + es[k].dist;
        parent[v] := u;
      }
      assert State(dist[..], parent[..], visited[..], settled) == Relax(cur, u, es[k]);
      k := k + 1;
    }
  }

  /** The initialisation of dijkstra: every vertex unreached, without a
      parent and unsettled, then the source at distance 0. */
  method Initialise(n: nat, src: nat) returns (dist: array<int>, parent: array<int>, visited: array<bool>)
    requires src < n
    ensures fresh(dist) && fresh(parent) && fresh(visited) && dist != parent
    ensures State(dist[..], parent[..], visited[..], []) == Start(n, src)
  {
    dist := new int[n];
    parent := new int[n];
    visited := new bool[n];
    var i := 0;
    while i < n
      invariant 0 <= i <= n
      invariant forall v :: 0 <= v < i ==> parent[v] == -1 && dist[v] == Unreached && !visited[v]
    {
      parent[i] := -1;
      dist[i] := Unreached;
      visited[i] := false;
      i := i + 1;
    }
    dist[src] := 0;
    assert State(dist[..], parent[..], visited[..], []) == Start(n, src);
  }

  /** dijkstra: initialise the tables, then run V - 1 rounds of selecting
      the closest unsettled vertex, settling it and relaxing its edges in
      list order; the rounds stop early when no vertex can be selected. */
  method Dijkstra<L(==)>(g: Graph<L>, src: nat) returns (dist: array<int>, parent: array<int>)
    requires g.Valid() && src < g.V
    ensures fresh(dist) && fresh(parent)
    ensures dist[..] == Shortest(g.adj, src).dist && parent[..] == Shortest(g.adj, src).parent
  {
    var n := g.V;
    ghost var adj := g.adj;
    var visited;
    dist, parent, visited := Initialise(n, src);
    ghost var settled: seq<nat> := [];
    var count := 0;
    ghost var left: nat := n - 1;
    while count < n - 1
      invariant 0 <= count <= n - 1 && left == n - 1 - count
      invariant Sized(n, State(dist[..], parent[..], visited[..], settled))
      invariant Rounds(adj, State(dist[..], parent[..], visited[..], settled), left) == Shortest(adj, src)
    {
      ghost var before := State(dist[..], parent[..], visited[..], settled);
      var next := MinDistance(dist, visited);
      if next.None? {
        break;
      }
      var u := next.value;
      visited[u] := true;
      settled := settled + [u];
      ghost var marked := State(dist[..], parent[..], visited[..], settled);
      assert marked == Visit(before, u);
      RelaxEdges(g, u, dist, parent, visited, settled);
      ghost var after := State(dist[..], parent[..], visited[..], settled);
      assert after == Settle(adj, before, u);
      left := RoundsStep(adj, before, left, u);
      count := count + 1;
    }
  }
}
