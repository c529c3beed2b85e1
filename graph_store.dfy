/** The graph store shared by the map builders and the map navigators: a
    vertex count and one adjacency list per vertex, each list holding the
    outgoing edges with the most recently inserted edge at its head.  Edges
    carry a tag: a Direction in the directed programs, the unit value in
    the undirected ones. */
module GraphStore {
  import opened Common

  datatype Edge<L> = Edge(dest: nat, dist: int, tag: L)

  /** Every edge points at a vertex of the graph. */
  ghost predicate InRange<L>(adj: seq<seq<Edge<L>>>) {
    forall u, k :: 0 <= u < |adj| && 0 <= k < |adj[u]| ==> adj[u][k].dest < |adj|
  }

  /** n vertices, none of them with an edge. */
  function Empty<L>(n: nat): (adj: seq<seq<Edge<L>>>)
    ensures |adj| == n && InRange(adj)
    ensures forall u :: 0 <= u < n ==> adj[u] == []
  {
    seq(n, _ => [])
  }

  // ---------------------------------------------------------------------
  // Walks: vertex sequences joined by edges of the graph

  /** vs is a walk whose i-th step takes the edge hops[i], an entry of the
      adjacency list of vs[i] that leads to vs[i + 1]. */
  ghost predicate IsWalk<L>(adj: seq<seq<Edge<L>>>, vs: seq<nat>, hops: seq<Edge<L>>) {
    && |vs| == |hops| + 1
    && (forall i :: 0 <= i < |vs| ==> vs[i] < |adj|)
    && (forall i :: 0 <= i < |hops| ==> hops[i] in adj[vs[i]] && hops[i].dest == vs[i + 1])
  }

  /** The walk vs starts at a and ends at b. */
  ghost predicate WalkBetween<L>(adj: seq<seq<Edge<L>>>, a: nat, b: nat, vs: seq<nat>, hops: seq<Edge<L>>) {
    IsWalk(adj, vs, hops) && vs[0] == a && vs[|vs| - 1] == b
  }

  /** Sum of the distances of the edges taken. */
  function Weight<L>(hops: seq<Edge<L>>): int {
    if hops == [] then 0 else hops[0].dist + Weight(hops[1..])
  }

  ghost predicate NonNegative<L>(adj: seq<seq<Edge<L>>>) {
    forall u, k :: 0 <= u < |adj| && 0 <= k < |adj[u]| ==> adj[u][k].dist >= 0
  }

  lemma {:induction false} WeightSplit<L>(hops: seq<Edge<L>>, k: nat)
    requires k <= |hops|
    ensures Weight(hops) == Weight(hops[..k]) + Weight(hops[k..])
  {
    if k > 0 {
      WeightSplit(hops[1..], k - 1);
      assert hops[1..][..k - 1] == hops[..k][1..];
      assert hops[1..][k - 1..] == hops[k..];
    }
  }

  lemma {:induction false} WeightNonNegative<L>(adj: seq<seq<Edge<L>>>, vs: seq<nat>, hops: seq<Edge<L>>)
    requires NonNegative(adj) && IsWalk(adj, vs, hops)
    ensures Weight(hops) >= 0
  {
    if hops != [] {
      WeightNonNegative(adj, vs[1..], hops[1..]);
      var k :| 0 <= k < |adj[vs[0]]| && adj[vs[0]][k] == hops[0];
    }
  }

  /** A walk followed by one more edge out of its last vertex is a walk,
      heavier by that edge's distance. */
  lemma ExtendWalk<L>(adj: seq<seq<Edge<L>>>, vs: seq<nat>, hops: seq<Edge<L>>, e: Edge<L>)
    requires IsWalk(adj, vs, hops) && e in adj[vs[|vs| - 1]] && e.dest < |adj|
    ensures IsWalk(adj, vs + [e.dest], hops + [e])
    ensures Weight(hops + [e]) == Weight(hops) + e.dist
  {
    var vs', hops' := vs + [e.dest], hops + [e];
    forall i | 0 <= i < |hops'| ensures hops'[i] in adj[vs'[i]] && hops'[i].dest == vs'[i + 1] {
      if i < |hops| {
        assert hops'[i] == hops[i] && vs'[i] == vs[i] && vs'[i + 1] == vs[i + 1];
      } else {
        assert vs'[i] == vs[|vs| - 1] && hops'[i] == e;
      }
    }
    WeightSplit(hops', |hops|);
    assert hops'[..|hops|] == hops && hops'[|hops|..] == [e];
  }

  /** One edge into the first vertex of a walk, followed by the walk, is a
      walk, heavier by that edge's distance. */
  lemma PrependWalk<L>(adj: seq<seq<Edge<L>>>, u: nat, e: Edge<L>, vs: seq<nat>, hops: seq<Edge<L>>)
    requires IsWalk(adj, vs, hops) && u < |adj| && e in adj[u] && e.dest == vs[0]
    ensures IsWalk(adj, [u] + vs, [e] + hops)
    ensures Weight([e] + hops) == e.dist + Weight(hops)
  {
    var vs', hops' := [u] + vs, [e] + hops;
    forall i | 0 <= i < |hops'| ensures hops'[i] in adj[vs'[i]] && hops'[i].dest == vs'[i + 1] {
      if i > 0 {
        assert hops'[i] == hops[i - 1] && vs'[i] == vs[i - 1] && vs'[i + 1] == vs[i];
      }
    }
    assert hops'[1..] == hops;
  }

  // ---------------------------------------------------------------------
  // The edge bag: every edge of the graph as a (source, edge) pair

  function ListBag<L(==)>(u: nat, es: seq<Edge<L>>): multiset<(nat, Edge<L>)> {
    if es == [] then multiset{} else multiset{(u, es[0])} + ListBag(u, es[1..])
  }

  function EdgeBag<L(==)>(adj: seq<seq<Edge<L>>>): multiset<(nat, Edge<L>)> {
    if adj == [] then multiset{}
    else EdgeBag(adj[..|adj| - 1]) + ListBag(|adj| - 1, adj[|adj| - 1])
  }

  lemma Regroup<T>(a: multiset<T>, b: multiset<T>, m: multiset<T>)
    ensures a + (m + b) == a + b + m && a + m + b == a + b + m
  {
  }

  /** Prepending e to the list of s adds exactly the pair (s, e). */
  lemma {:induction false} LinkBag<L>(adj: seq<seq<Edge<L>>>, s: nat, e: Edge<L>)
    requires s < |adj|
    ensures EdgeBag(adj[s := [e] + adj[s]]) == EdgeBag(adj) + multiset{(s, e)}
  {
    var adj' := adj[s := [e] + adj[s]];
    var n := |adj| - 1;
    var front, last := EdgeBag(adj[..n]), ListBag(n, adj[n]);
    assert EdgeBag(adj) == front + last;
    if s == n {
      assert adj'[..n] == adj[..n];
      assert ([e] + adj[s])[1..] == adj[s];
      assert EdgeBag(adj') == front + (multiset{(s, e)} + last);
    } else {
      LinkBag(adj[..n], s, e);
      assert adj'[..n] == adj[..n][s := [e] + adj[..n][s]];
      assert EdgeBag(adj') == front + multiset{(s, e)} + last;
    }
    Regroup(front, last, multiset{(s, e)});
  }

  /** Appending vertices without edges adds nothing to the bag. */
  lemma {:induction false} GrowBag<L>(adj: seq<seq<Edge<L>>>, grown: seq<seq<Edge<L>>>)
    requires |adj| <= |grown| && grown[..|adj|] == adj
    requires forall u :: |adj| <= u < |grown| ==> grown[u] == []
    ensures EdgeBag(grown) == EdgeBag(adj)
    decreases |grown|
  {
    if |grown| > |adj| {
      var n := |grown| - 1;
      assert grown[..n][..|adj|] == adj;
      GrowBag(adj, grown[..n]);
    } else {
      assert grown == adj;
    }
  }

  /** Every edge is matched by its reverse with the same distance and tag,
      as often as it occurs: the shape of a store of two-way roads. */
  ghost predicate Symmetric<L(!new)>(bag: multiset<(nat, Edge<L>)>) {
    forall u, v, w, t :: bag[(u, Edge(v, w, t))] == bag[(v, Edge(u, w, t))]
  }

  /** Adding a road's two halves keeps a bag symmetric. */
  lemma SymmetricPair<L(!new)>(bag: multiset<(nat, Edge<L>)>, s: nat, d: nat, w: int, t: L)
    requires Symmetric(bag)
    ensures Symmetric(bag + multiset{(s, Edge(d, w, t)), (d, Edge(s, w, t))})
  {
    var b := bag + multiset{(s, Edge(d, w, t)), (d, Edge(s, w, t))};
    forall u, v, w', t' ensures b[(u, Edge(v, w', t'))] == b[(v, Edge(u, w', t'))] {
      assert bag[(u, Edge(v, w', t'))] == bag[(v, Edge(u, w', t'))];
    }
  }

  // ---------------------------------------------------------------------
  // Records: the edges in the order the map is written out

  datatype Record<L> = Record(src: nat, dest: nat, dist: int, tag: L)

  /** The records of one list, in list order, all with source u. */
  function ListRecords<L>(u: nat, es: seq<Edge<L>>): (r: seq<Record<L>>)
    ensures |r| == |es| && forall k :: 0 <= k < |r| ==> r[k].src == u
  {
    if es == [] then []
    else [Record(u, es[0].dest, es[0].dist, es[0].tag)] + ListRecords(u, es[1..])
  }

  /** One record per edge: vertices from i upwards, each list head first. */
  function EncodeFrom<L>(adj: seq<seq<Edge<L>>>, i: nat): (r: seq<Record<L>>)
    ensures forall k :: 0 <= k < |r| ==> i <= r[k].src < |adj|
    decreases |adj| - i
  {
    if i >= |adj| then [] else ListRecords(i, adj[i]) + EncodeFrom(adj, i + 1)
  }

  /** The records written for the whole store. */
  function Encode<L>(adj: seq<seq<Edge<L>>>): (r: seq<Record<L>>)
    ensures forall k :: 0 <= k < |r| ==> r[k].src < |adj|
  {
    EncodeFrom(adj, 0)
  }

  /** The edges of the records whose source is s, in record order. */
  function Outgoing<L>(recs: seq<Record<L>>, s: nat): seq<Edge<L>> {
    if recs == [] then []
    else
      var here := if recs[0].src == s then [Edge(recs[0].dest, recs[0].dist, recs[0].tag)] else [];
      here + Outgoing(recs[1..], s)
  }

  lemma {:induction false} OutgoingAppend<L>(a: seq<Record<L>>, b: seq<Record<L>>, s: nat)
    ensures Outgoing(a + b, s) == Outgoing(a, s) + Outgoing(b, s)
  {
    if a == [] {
      assert a + b == b;
    } else {
      OutgoingAppend(a[1..], b, s);
      assert (a + b)[0] == a[0] && (a + b)[1..] == a[1..] + b;
      var here := if a[0].src == s then [Edge(a[0].dest, a[0].dist, a[0].tag)] else [];
      assert Outgoing(a, s) == here + Outgoing(a[1..], s);
      assert Outgoing(a + b, s) == here + (Outgoing(a[1..], s) + Outgoing(b, s));
      Assoc(here, Outgoing(a[1..], s), Outgoing(b, s));
    }
  }

  lemma {:induction false} OutgoingList<L>(u: nat, es: seq<Edge<L>>, s: nat)
    ensures Outgoing(ListRecords(u, es), s) == if u == s then es else []
  {
    if es != [] {
      OutgoingList(u, es[1..], s);
      assert es == [es[0]] + es[1..];
    }
  }

  lemma {:induction false} OutgoingEncodeFrom<L>(adj: seq<seq<Edge<L>>>, i: nat, s: nat)
    ensures Outgoing(EncodeFrom(adj, i), s) == if i <= s < |adj| then adj[s] else []
    decreases |adj| - i
  {
    if i < |adj| {
      OutgoingAppend(ListRecords(i, adj[i]), EncodeFrom(adj, i + 1), s);
      OutgoingList(i, adj[i], s);
      OutgoingEncodeFrom(adj, i + 1, s);
    }
  }

  lemma {:induction false} ListRecordsSources<L>(u: nat, es: seq<Edge<L>>)
    ensures |ListRecords(u, es)| == |es|
    ensures forall k :: 0 <= k < |es| ==> ListRecords(u, es)[k] == Record(u, es[k].dest, es[k].dist, es[k].tag)
  {
    if es != [] {
      ListRecordsSources(u, es[1..]);
    }
  }

  lemma {:induction false} EncodeFromSources<L>(adj: seq<seq<Edge<L>>>, i: nat)
    ensures forall k :: 0 <= k < |EncodeFrom(adj, i)| ==>
      i <= EncodeFrom(adj, i)[k].src < |adj|
    ensures forall k, l :: 0 <= k < l < |EncodeFrom(adj, i)| ==>
      EncodeFrom(adj, i)[k].src <= EncodeFrom(adj, i)[l].src
    ensures InRange(adj) ==> forall k :: 0 <= k < |EncodeFrom(adj, i)| ==> EncodeFrom(adj, i)[k].dest < |adj|
    decreases |adj| - i
  {
    if i < |adj| {
      ListRecordsSources(i, adj[i]);
      EncodeFromSources(adj, i + 1);
    }
  }

  /** What the map writer promises: records come in ascending source
      order, and the records of source s list adj[s] head first, so every
      edge is written exactly once and nothing else is. */
  lemma EncodeOrder<L>(adj: seq<seq<Edge<L>>>)
    ensures forall k, l :: 0 <= k < l < |Encode(adj)| ==> Encode(adj)[k].src <= Encode(adj)[l].src
    ensures forall k :: 0 <= k < |Encode(adj)| ==> Encode(adj)[k].src < |adj|
    ensures InRange(adj) ==> forall k :: 0 <= k < |Encode(adj)| ==> Encode(adj)[k].dest < |adj|
    ensures forall s :: 0 <= s < |adj| ==> Outgoing(Encode(adj), s) == adj[s]
  {
    EncodeFromSources(adj, 0);
    forall s | 0 <= s < |adj| ensures Outgoing(Encode(adj), s) == adj[s] {
      OutgoingEncodeFrom(adj, 0, s);
    }
  }

  // ---------------------------------------------------------------------
  // The mutable store

  /** The larger of a and b, as the builders' conditional expression picks it. */
  function Max(a: int, b: int): (r: int)
    ensures a <= r && b <= r && (r == a || r == b)
  {
    if a > b then a else b
  }

  /** A road's two prepends: f on the list of s, then b on the list of d. */
  function Road<L>(base: seq<seq<Edge<L>>>, s: nat, d: nat, f: Edge<L>, b: Edge<L>): seq<seq<Edge<L>>>
    requires s < |base| && d < |base|
  {
    var half := base[s := [f] + base[s]];
    half[d := [b] + half[d]]
  }

  /** The two prepends of a road on a store whose lists are those of old0
      followed by empty ones: each list gains the edges aimed at it, the
      later on top. */
  lemma PrependTwo<L>(base: seq<seq<Edge<L>>>, old0: seq<seq<Edge<L>>>, s: nat, d: nat, f: Edge<L>, b: Edge<L>)
    requires s < |base| && d < |base|
    requires |old0| <= |base| && base[..|old0|] == old0
    requires forall u :: |old0| <= u < |base| ==> base[u] == []
    ensures |Road(base, s, d, f, b)| == |base|
    ensures forall u :: 0 <= u < |base| ==>
      Road(base, s, d, f, b)[u] == (if u == d then [b] else []) + (if u == s then [f] else [])
                                   + (if u < |old0| then old0[u] else [])
  {
    var half := base[s := [f] + base[s]];
    forall u | 0 <= u < |base|
      ensures half[d := [b] + half[d]][u] == (if u == d then [b] else []) + (if u == s then [f] else [])
                                             + (if u < |old0| then old0[u] else [])
    {
      var x, y := (if u == d then [b] else []), (if u == s then [f] else []);
      var z := if u < |old0| then old0[u] else [];
      if u < |old0| {
        assert base[..|old0|][u] == z;
      }
      assert half[u] == y + z;
      assert x + (y + z) == x + y + z;
    }
  }

  /** The bag of a road's two prepends gains both pairs. */
  lemma RoadBag<L>(base: seq<seq<Edge<L>>>, s: nat, d: nat, f: Edge<L>, b: Edge<L>)
    requires s < |base| && d < |base|
    ensures EdgeBag(Road(base, s, d, f, b)) == EdgeBag(base) + multiset{(s, f), (d, b)}
  {
    var half := base[s := [f] + base[s]];
    LinkBag(base, s, f);
    LinkBag(half, d, b);
    assert EdgeBag(Road(base, s, d, f, b)) == EdgeBag(half) + multiset{(d, b)};
    TwoBag(EdgeBag(base), (s, f), (d, b));
  }

  lemma TwoBag<T>(a: multiset<T>, x: T, y: T)
    ensures a + multiset{x} + multiset{y} == a + multiset{x, y}
  {
  }

  /** A road's two prepends between vertices of the store keep every edge
      in range. */
  lemma RoadInRange<L>(base: seq<seq<Edge<L>>>, s: nat, d: nat, f: Edge<L>, b: Edge<L>)
    requires InRange(base) && s < |base| && d < |base| && f.dest < |base| && b.dest < |base|
    ensures InRange(Road(base, s, d, f, b))
  {
    var half := base[s := [f] + base[s]];
    assert InRange(half);
  }

  class Graph<L(==)> {
    /** Number of vertices; valid vertex indices are [0, V). */
    var V: nat
    /** adj[u] is the adjacency list of u, head at index 0. */
    var adj: seq<seq<Edge<L>>>

    ghost predicate Valid()
      reads this
    {
      |adj| == V && InRange(adj)
    }

    /** createGraph: n vertices with empty adjacency lists. */
    constructor (n: nat)
      ensures Valid() && V == n && adj == Empty(n)
    {
      V := n;
      adj := Empty(n);
    }

    /** Insert one edge at the head of the list of src. */
    method Link(src: nat, e: Edge<L>)
      requires Valid() && src < V && e.dest < V
      modifies this
      ensures Valid() && V == old(V)
      ensures adj == old(adj)[src := [e] + old(adj)[src]]
      ensures EdgeBag(adj) == old(EdgeBag(adj)) + multiset{(src, e)}
    {
      LinkBag(adj, src, e);
      adj := adj[src := [e] + adj[src]];
    }

    /** The realloc of the list array to n slots, the new slots set to the
        empty list one at a time. */
    method Grow(n: nat)
      requires Valid() && V < n
      modifies this
      ensures Valid() && V == n
      ensures adj[..old(V)] == old(adj)
      ensures forall u :: old(V) <= u < n ==> adj[u] == []
      ensures EdgeBag(adj) == old(EdgeBag(adj))
    {
      var i := V;
      while i < n
        invariant V <= i <= n && |adj| == i
        invariant adj[..V] == old(adj)
        invariant forall u :: V <= u < i ==> adj[u] == []
        invariant InRange(adj)
      {
        adj := adj + [[]];
        i := i + 1;
      }
      GrowBag(old(adj), adj);
      V := n;
    }

    /** The store half of addEdge: reject a negative endpoint, otherwise
        grow to max(src, dest) + 1 vertices when an endpoint is missing. */
    method Admit(src: int, dest: int) returns (ok: bool)
      requires Valid()
      modifies this
      ensures Valid()
      ensures ok <==> src >= 0 && dest >= 0
      ensures !ok ==> V == old(V) && adj == old(adj)
      ensures ok ==> V == Max(old(V), Max(src, dest) + 1)
      ensures V >= old(V) && adj[..old(V)] == old(adj)
      ensures forall u :: old(V) <= u < V ==> adj[u] == []
      ensures EdgeBag(adj) == old(EdgeBag(adj))
    {
      ok := src >= 0 && dest >= 0;
      if ok && (src >= V || dest >= V) {
        Grow(Max(src, dest) + 1);
      }
      assert adj[..old(V)] == old(adj);
    }

    /** addEdge of the directed builder: one edge src -> dest. */
    method AddEdge(src: int, dest: int, dist: int, tag: L) returns (ok: bool)
      requires Valid()
      modifies this
      ensures Valid()
      ensures ok <==> src >= 0 && dest >= 0
      ensures !ok ==> V == old(V) && adj == old(adj)
      ensures ok ==> V == Max(old(V), Max(src, dest) + 1)
      ensures ok ==> forall u :: 0 <= u < V ==>
        adj[u] == (if u == src then [Edge(dest, dist, tag)] else [])
                  + (if u < old(V) then old(adj)[u] else [])
      ensures ok ==> EdgeBag(adj) == old(EdgeBag(adj)) + multiset{(src as nat, Edge(dest, dist, tag))}
    {
      ok := Admit(src, dest);
      if ok {
        ghost var grown := adj;
        assert forall u :: 0 <= u < old(V) ==> grown[u] == old(adj)[u] by {
          assert grown[..old(V)] == old(adj);
        }
        Link(src, Edge(dest, dist, tag));
      }
    }

    /** addEdge of the undirected builder: the pair src -> dest and
        dest -> src with the same distance; when src == dest both land on
        the same list, the reverse one on top. */
    method AddRoad(src: int, dest: int, dist: int, tag: L) returns (ok: bool)
      requires Valid()
      modifies this
      ensures Valid()
      ensures ok <==> src >= 0 && dest >= 0
      ensures !ok ==> V == old(V) && adj == old(adj)
      ensures ok ==> V == Max(old(V), Max(src, dest) + 1)
      ensures ok ==> forall u :: 0 <= u < V ==>
        adj[u] == (if u == dest then [Edge(src as nat, dist, tag)] else [])
                  + (if u == src then [Edge(dest, dist, tag)] else [])
                  + (if u < old(V) then old(adj)[u] else [])
      ensures ok ==>
        EdgeBag(adj) == old(EdgeBag(adj)) + multiset{(src as nat, Edge(dest, dist, tag)), (dest as nat, Edge(src as nat, dist, tag))}
    {
      ok := Admit(src, dest);
      if ok {
        ghost var grown := adj;
        var fwd, bwd := Edge(dest as nat, dist, tag), Edge(src as nat, dist, tag);
        RoadInRange(grown, src, dest, fwd, bwd);
        RoadBag(grown, src, dest, fwd, bwd);
        PrependTwo(grown, old(adj), src, dest, fwd, bwd);
        adj := Road(adj, src, dest, fwd, bwd);
      }
    }

    /** saveMapToFile: the header and one record per edge, vertices in
        ascending order and each list head first. */
    method Save() returns (header: nat, recs: seq<Record<L>>)
      requires Valid()
      ensures header == V && recs == Encode(adj)
    {
      header := V;
      recs := [];
      var i := 0;
      while i < V
        invariant 0 <= i <= V
        invariant recs + EncodeFrom(adj, i) == Encode(adj)
      {
        var es := adj[i];
        ghost var rest := EncodeFrom(adj, i + 1);
        assert EncodeFrom(adj, i) == ListRecords(i, es) + rest;
        var j := 0;
        assert es[j..] == es;
        while j < |es|
          invariant 0 <= j <= |es|
          invariant recs + (ListRecords(i, es[j..]) + rest) == Encode(adj)
        {
          var r := Record(i, es[j].dest, es[j].dist, es[j].tag);
          assert es[j..][1..] == es[j + 1..];
          assert ListRecords(i, es[j..]) == [r] + ListRecords(i, es[j + 1..]);
          Assoc([r], ListRecords(i, es[j + 1..]), rest);
          Assoc(recs, [r], ListRecords(i, es[j + 1..]) + rest);
          recs := recs + [r];
          j := j + 1;
        }
        assert ListRecords(i, es[j..]) == [];
        assert [] + rest == rest;
        i := i + 1;
      }
    }
  }
}
