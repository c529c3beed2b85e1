/** The map file: a vertex-count header followed by one record per edge,
    read back by the navigators' loaders.  A file is modelled as the
    sequence of its whitespace-separated tokens; each token either reads
    as a decimal integer or it does not. */
module MapCodec {
  import opened Common
  import opened Directions
  import opened GraphStore

  datatype Tok = Num(n: int) | Word(w: string)

  /** Why a loader returns no graph: the header is missing or not an
      integer, or it is negative, so that allocating the list array fails
      and the program exits. */
  datatype LoadError = InvalidFormat | AllocationFailed

  // ---------------------------------------------------------------------
  // Scanning: what the fscanf loops read

  /** A record of the directed formats: three integers and the token read
      into the direction buffer. */
  datatype Line = Line(src: int, dest: int, dist: int, word: Tok)

  /** A record of the undirected format: three integers. */
  datatype Triple = Triple(src: int, dest: int, dist: int)

  /** The records read with "%d %d %d %s": reading stops at end of input
      or at the first record whose three integer fields do not all parse. */
  function Lines(toks: seq<Tok>): (r: seq<Line>)
    ensures 4 * |r| <= |toks|
  {
    if |toks| >= 4 && toks[0].Num? && toks[1].Num? && toks[2].Num? then
      [Line(toks[0].n, toks[1].n, toks[2].n, toks[3])] + Lines(toks[4..])
    else []
  }

  /** The records read with "%d %d %d". */
  function Triples(toks: seq<Tok>): (r: seq<Triple>)
    ensures 3 * |r| <= |toks|
  {
    if |toks| >= 3 && toks[0].Num? && toks[1].Num? && toks[2].Num? then
      [Triple(toks[0].n, toks[1].n, toks[2].n)] + Triples(toks[3..])
    else []
  }

  /** The j-th record read holds the j-th group of four tokens, whose first
      three are integers. */
  lemma {:induction false} LinesRead(toks: seq<Tok>)
    ensures forall j :: 0 <= j < |Lines(toks)| ==>
      && toks[4 * j].Num? && toks[4 * j + 1].Num? && toks[4 * j + 2].Num?
      && Lines(toks)[j] == Line(toks[4 * j].n, toks[4 * j + 1].n, toks[4 * j + 2].n, toks[4 * j + 3])
    decreases |toks|
  {
    if |toks| >= 4 && toks[0].Num? && toks[1].Num? && toks[2].Num? {
      var rest := toks[4..];
      LinesRead(rest);
      forall j | 1 <= j < |Lines(toks)|
        ensures toks[4 * j].Num? && toks[4 * j + 1].Num? && toks[4 * j + 2].Num?
        ensures Lines(toks)[j] == Line(toks[4 * j].n, toks[4 * j + 1].n, toks[4 * j + 2].n, toks[4 * j + 3])
      {
        assert Lines(toks)[j] == Lines(rest)[j - 1];
        assert rest[4 * (j - 1)] == toks[4 * j] && rest[4 * (j - 1) + 1] == toks[4 * j + 1];
        assert rest[4 * (j - 1) + 2] == toks[4 * j + 2] && rest[4 * (j - 1) + 3] == toks[4 * j + 3];
      }
    }
  }

  /** Reading stops at the first group of tokens that is not a record: the
      group after the last record read is incomplete or has one of its
      three numeric fields not an integer. */
  lemma {:induction false} LinesStop(toks: seq<Tok>)
    ensures var m := 4 * |Lines(toks)|;
      !(m + 4 <= |toks| && toks[m].Num? && toks[m + 1].Num? && toks[m + 2].Num?)
    decreases |toks|
  {
    if |toks| >= 4 && toks[0].Num? && toks[1].Num? && toks[2].Num? {
      var rest := toks[4..];
      LinesStop(rest);
      var m := 4 * |Lines(rest)|;
      assert |Lines(toks)| == |Lines(rest)| + 1;
      assert 4 * |Lines(toks)| == m + 4;
      if m + 4 <= |rest| {
        assert rest[m] == toks[m + 4] && rest[m + 1] == toks[m + 5] && rest[m + 2] == toks[m + 6];
      }
    }
  }

  /** The same for the three-field records of the undirected format. */
  lemma {:induction false} TriplesRead(toks: seq<Tok>)
    ensures forall j :: 0 <= j < |Triples(toks)| ==>
      && toks[3 * j].Num? && toks[3 * j + 1].Num? && toks[3 * j + 2].Num?
      && Triples(toks)[j] == Triple(toks[3 * j].n, toks[3 * j + 1].n, toks[3 * j + 2].n)
    decreases |toks|
  {
    if |toks| >= 3 && toks[0].Num? && toks[1].Num? && toks[2].Num? {
      var rest := toks[3..];
      TriplesRead(rest);
      forall j | 1 <= j < |Triples(toks)|
        ensures toks[3 * j].Num? && toks[3 * j + 1].Num? && toks[3 * j + 2].Num?
        ensures Triples(toks)[j] == Triple(toks[3 * j].n, toks[3 * j + 1].n, toks[3 * j + 2].n)
      {
        assert Triples(toks)[j] == Triples(rest)[j - 1];
        assert rest[3 * (j - 1)] == toks[3 * j] && rest[3 * (j - 1) + 1] == toks[3 * j + 1];
        assert rest[3 * (j - 1) + 2] == toks[3 * j + 2];
      }
    }
  }

  /** The three-field records of the undirected format stop the same way. */
  lemma {:induction false} TriplesStop(toks: seq<Tok>)
    ensures var m := 3 * |Triples(toks)|;
      !(m + 3 <= |toks| && toks[m].Num? && toks[m + 1].Num? && toks[m + 2].Num?)
    decreases |toks|
  {
    if |toks| >= 3 && toks[0].Num? && toks[1].Num? && toks[2].Num? {
      var rest := toks[3..];
      TriplesStop(rest);
      var m := 3 * |Triples(rest)|;
      assert |Triples(toks)| == |Triples(rest)| + 1;
      assert 3 * |Triples(toks)| == m + 3;
      if m + 3 <= |rest| {
        assert rest[m] == toks[m + 3] && rest[m + 1] == toks[m + 4] && rest[m + 2] == toks[m + 5];
      }
    }
  }

  /** The direction a token names; "%s" reads an integer token as its
      digits, which never spell a direction. */
  function DirectionOf(t: Tok): (r: Option<Direction>)
    ensures r.Some? <==> t.Word? && Parse(t.w).Some?
    ensures r.Some? ==> t == Word(Name(r.value))
  {
    match t
    case Num(_) => None
    case Word(w) => Parse(w)
  }

  /** The header: an integer, and not a negative one. */
  function Header(toks: seq<Tok>): (r: Result<nat, LoadError>)
    ensures r.Success? <==> |toks| > 0 && toks[0].Num? && toks[0].n >= 0
    ensures r.Success? ==> r.value == toks[0].n
    ensures r == Failure(InvalidFormat) <==> toks == [] || toks[0].Word?
  {
    if toks == [] || toks[0].Word? then Failure(InvalidFormat)
    else if toks[0].n < 0 then Failure(AllocationFailed)
    else Success(toks[0].n)
  }

  // ---------------------------------------------------------------------
  // Insertion: every accepted edge is prepended to the list of its source

  /** Prepend e to the list of s; a source outside the store is ignored. */
  function Prepend<L>(adj: seq<seq<Edge<L>>>, ins: (nat, Edge<L>)): seq<seq<Edge<L>>> {
    if ins.0 < |adj| then adj[ins.0 := [ins.1] + adj[ins.0]] else adj
  }

  /** The store after prepending the insertions in order. */
  function Insert<L>(adj: seq<seq<Edge<L>>>, ins: seq<(nat, Edge<L>)>): seq<seq<Edge<L>>>
    decreases ins
  {
    if ins == [] then adj else Insert(Prepend(adj, ins[0]), ins[1..])
  }

  lemma InsertCons<L>(adj: seq<seq<Edge<L>>>, x: (nat, Edge<L>), rest: seq<(nat, Edge<L>)>)
    ensures Insert(adj, [x] + rest) == Insert(Prepend(adj, x), rest)
  {
    assert ([x] + rest)[1..] == rest;
  }

  /** The edges inserted into the list of s, in insertion order. */
  function Aimed<L>(ins: seq<(nat, Edge<L>)>, s: nat): seq<Edge<L>> {
    if ins == [] then []
    else
      var here := if ins[0].0 == s then [ins[0].1] else [];
      here + Aimed(ins[1..], s)
  }

  lemma {:induction false} InsertAppend<L>(adj: seq<seq<Edge<L>>>, a: seq<(nat, Edge<L>)>, b: seq<(nat, Edge<L>)>)
    ensures Insert(adj, a + b) == Insert(Insert(adj, a), b)
    decreases a
  {
    if a == [] {
      assert a + b == b;
    } else {
      assert (a + b)[0] == a[0] && (a + b)[1..] == a[1..] + b;
      InsertAppend(Prepend(adj, a[0]), a[1..], b);
    }
  }

  lemma {:induction false} InsertLength<L>(adj: seq<seq<Edge<L>>>, ins: seq<(nat, Edge<L>)>)
    ensures |Insert(adj, ins)| == |adj|
    decreases ins
  {
    if ins != [] {
      InsertLength(Prepend(adj, ins[0]), ins[1..]);
    }
  }

  /** Closed form of insertion: each list ends up holding the edges aimed
      at it, the last inserted first, on top of what it held before. */
  lemma {:induction false} InsertStacks<L>(adj: seq<seq<Edge<L>>>, ins: seq<(nat, Edge<L>)>, s: nat)
    requires s < |adj|
    ensures |Insert(adj, ins)| == |adj|
    ensures Insert(adj, ins)[s] == Reverse(Aimed(ins, s)) + adj[s]
    decreases ins
  {
    if ins != [] {
      var here := if ins[0].0 == s then [ins[0].1] else [];
      var p := Prepend(adj, ins[0]);
      assert p[s] == here + adj[s];
      InsertStacks(p, ins[1..], s);
      ReverseAppend(here, Aimed(ins[1..], s));
      assert Reverse(here) == here;
    }
  }

  ghost predicate Targets<L>(ins: seq<(nat, Edge<L>)>, n: nat) {
    forall k :: 0 <= k < |ins| ==> ins[k].0 < n && ins[k].1.dest < n
  }

  /** Inserting in-range edges keeps every edge in range. */
  lemma {:induction false} InsertInRange<L>(adj: seq<seq<Edge<L>>>, ins: seq<(nat, Edge<L>)>)
    requires InRange(adj) && Targets(ins, |adj|)
    ensures InRange(Insert(adj, ins))
    decreases ins
  {
    if ins != [] {
      var p := Prepend(adj, ins[0]);
      assert InRange(p);
      assert Targets(ins[1..], |p|);
      InsertInRange(p, ins[1..]);
    }
  }

  /** Inserting in-range edges adds exactly the insertions to the edge bag. */
  lemma {:induction false} InsertBag<L>(adj: seq<seq<Edge<L>>>, ins: seq<(nat, Edge<L>)>)
    requires forall k :: 0 <= k < |ins| ==> ins[k].0 < |adj|
    ensures EdgeBag(Insert(adj, ins)) == EdgeBag(adj) + multiset(ins)
    decreases ins
  {
    if ins != [] {
      var x, rest := ins[0], ins[1..];
      var p := adj[x.0 := [x.1] + adj[x.0]];
      assert Prepend(adj, x) == p;
      assert Insert(adj, ins) == Insert(p, rest);
      LinkBag(adj, x.0, x.1);
      assert |p| == |adj|;
      assert forall k :: 0 <= k < |rest| ==> rest[k].0 < |p| by {
        forall k | 0 <= k < |rest| ensures rest[k].0 < |p| {
          assert rest[k] == ins[k + 1];
        }
      }
      InsertBag(p, rest);
      assert multiset(ins) == multiset{x} + multiset(rest) by {
        assert ins == [x] + rest;
      }
      Regroup(EdgeBag(adj), multiset(rest), multiset{x});
    }
  }

  lemma {:induction false} EmptyBag<L>(n: nat)
    ensures EdgeBag(Empty<L>(n)) == multiset{}
  {
    if n > 0 {
      assert Empty<L>(n)[..n - 1] == Empty(n - 1);
      EmptyBag<L>(n - 1);
    }
  }

  /** A fresh store of n vertices after in-range insertions: n lists,
      every edge in range, and the insertions as its edge bag. */
  lemma LoadedBag<L>(n: nat, ins: seq<(nat, Edge<L>)>)
    requires Targets(ins, n)
    ensures |Insert(Empty(n), ins)| == n && InRange(Insert(Empty(n), ins))
    ensures EdgeBag(Insert(Empty(n), ins)) == multiset(ins)
  {
    if n > 0 {
      InsertStacks(Empty(n), ins, 0);
    } else {
      InsertLength(Empty(n), ins);
    }
    InsertInRange(Empty(n), ins);
    InsertBag(Empty(n), ins);
    EmptyBag<L>(n);
  }

  // ---------------------------------------------------------------------
  // The three loaders' insertions

  /** Both endpoints are vertices of a graph with n vertices. */
  predicate Within(src: int, dest: int, n: nat) {
    0 <= src < n && 0 <= dest < n
  }

  /** loadMapFromFile of the directed navigator: a record with a known
      direction and both endpoints in range inserts its edge src -> dest. */
  function DirectedInsertions(lines: seq<Line>, n: nat): (ins: seq<(nat, Edge<Direction>)>)
    ensures Targets(ins, n) && |ins| <= |lines|
  {
    if lines == [] then []
    else
      var l := lines[0];
      var d := DirectionOf(l.word);
      var here := if d.Some? && Within(l.src, l.dest, n) then [(l.src as nat, Edge(l.dest as nat, l.dist, d.value))] else [];
      here + DirectedInsertions(lines[1..], n)
  }

  /** loadMapFromFile of the two-way navigator: an accepted record inserts
      src -> dest with its direction, then dest -> src with the opposite
      direction and the same distance. */
  function TwoWayInsertions(lines: seq<Line>, n: nat): (ins: seq<(nat, Edge<Direction>)>)
    ensures Targets(ins, n) && |ins| <= 2 * |lines|
  {
    if lines == [] then []
    else
      var l := lines[0];
      var d := DirectionOf(l.word);
      var here :=
        if d.Some? && Within(l.src, l.dest, n) then
          [(l.src as nat, Edge(l.dest as nat, l.dist, d.value)), (l.dest as nat, Edge(l.src as nat, l.dist, Opposite(d.value)))]
        else [];
      here + TwoWayInsertions(lines[1..], n)
  }

  /** loadMapFromFile of the undirected navigator: an in-range record
      inserts src -> dest, then dest -> src, with the same distance. */
  function RoadInsertions(ts: seq<Triple>, n: nat): (ins: seq<(nat, Edge<()>)>)
    ensures Targets(ins, n) && |ins| <= 2 * |ts|
  {
    if ts == [] then []
    else
      var t := ts[0];
      var here :=
        if Within(t.src, t.dest, n) then
          [(t.src as nat, Edge(t.dest as nat, t.dist, ())), (t.dest as nat, Edge(t.src as nat, t.dist, ()))]
        else [];
      here + RoadInsertions(ts[1..], n)
  }

  /** One record of a two-way map file, read off the front of the tokens. */
  lemma TwoWayNext(toks: seq<Tok>, n: nat)
    requires |toks| >= 4 && toks[0].Num? && toks[1].Num? && toks[2].Num?
    ensures var d := DirectionOf(toks[3]);
      TwoWayInsertions(Lines(toks), n)
      == (if d.Some? && Within(toks[0].n, toks[1].n, n) then
            [(toks[0].n as nat, Edge(toks[1].n as nat, toks[2].n, d.value)),
             (toks[1].n as nat, Edge(toks[0].n as nat, toks[2].n, Opposite(d.value)))]
          else [])
         + TwoWayInsertions(Lines(toks[4..]), n)
  {
    var ls := Lines(toks);
    assert ls[0] == Line(toks[0].n, toks[1].n, toks[2].n, toks[3]) && ls[1..] == Lines(toks[4..]);
  }

  /** One record of a two-way map file handled: an accepted record's two
      edges are prepended, and the insertions of the records after it
      remain. */
  lemma TwoWayStep(adj: seq<seq<Edge<Direction>>>, toks: seq<Tok>, n: nat) returns (next: seq<seq<Edge<Direction>>>)
    requires |toks| >= 4 && toks[0].Num? && toks[1].Num? && toks[2].Num?
    ensures Insert(adj, TwoWayInsertions(Lines(toks), n)) == Insert(next, TwoWayInsertions(Lines(toks[4..]), n))
    ensures var d := DirectionOf(toks[3]);
      next == if d.Some? && Within(toks[0].n, toks[1].n, n) then
        Prepend(Prepend(adj, (toks[0].n as nat, Edge(toks[1].n as nat, toks[2].n, d.value))),
                (toks[1].n as nat, Edge(toks[0].n as nat, toks[2].n, Opposite(d.value))))
      else adj
  {
    TwoWayNext(toks, n);
    var d := DirectionOf(toks[3]);
    var rest := TwoWayInsertions(Lines(toks[4..]), n);
    if d.Some? && Within(toks[0].n, toks[1].n, n) {
      var x := (toks[0].n as nat, Edge(toks[1].n as nat, toks[2].n, d.value));
      var y := (toks[1].n as nat, Edge(toks[0].n as nat, toks[2].n, Opposite(d.value)));
      assert TwoWayInsertions(Lines(toks), n) == [x, y] + rest;
      InsertTwo(adj, x, y, rest);
      next := Prepend(Prepend(adj, x), y);
    } else {
      assert TwoWayInsertions(Lines(toks), n) == [] + rest;
      assert [] + rest == rest;
      next := adj;
    }
  }

  /** Inserting two records is prepending one and then the other. */
  lemma InsertTwo<L>(adj: seq<seq<Edge<L>>>, x: (nat, Edge<L>), y: (nat, Edge<L>), rest: seq<(nat, Edge<L>)>)
    ensures Insert(adj, [x, y] + rest) == Insert(Prepend(Prepend(adj, x), y), rest)
  {
    assert ([x, y] + rest)[1..] == [y] + rest;
    assert ([y] + rest)[1..] == rest;
  }

  /** The lists a directed load produces from a token sequence. */
  function DecodeDirected(toks: seq<Tok>): (r: Result<seq<seq<Edge<Direction>>>, LoadError>)
    ensures r.Failure? <==> Header(toks).Failure?
    ensures r.Failure? ==> r.error == Header(toks).error
    ensures r.Success? ==> |r.value| == toks[0].n
    ensures r.Success? ==> InRange(r.value)
  {
    match Header(toks)
    case Failure(e) => Failure(e)
    case Success(n) =>
      var ins := DirectedInsertions(Lines(toks[1..]), n);
      LoadedBag(n, ins);
      Success(Insert(Empty(n), ins))
  }

  /** The lists a two-way load produces from a token sequence. */
  function DecodeTwoWay(toks: seq<Tok>): (r: Result<seq<seq<Edge<Direction>>>, LoadError>)
    ensures r.Failure? <==> Header(toks).Failure?
    ensures r.Failure? ==> r.error == Header(toks).error
    ensures r.Success? ==> |r.value| == toks[0].n
    ensures r.Success? ==> InRange(r.value)
  {
    match Header(toks)
    case Failure(e) => Failure(e)
    case Success(n) =>
      var ins := TwoWayInsertions(Lines(toks[1..]), n);
      LoadedBag(n, ins);
      Success(Insert(Empty(n), ins))
  }

  /** The lists an undirected load produces from a token sequence. */
  function DecodeRoads(toks: seq<Tok>): (r: Result<seq<seq<Edge<()>>>, LoadError>)
    ensures r.Failure? <==> Header(toks).Failure?
    ensures r.Failure? ==> r.error == Header(toks).error
    ensures r.Success? ==> |r.value| == toks[0].n
    ensures r.Success? ==> InRange(r.value)
  {
    match Header(toks)
    case Failure(e) => Failure(e)
    case Success(n) =>
      var ins := RoadInsertions(Triples(toks[1..]), n);
      LoadedBag(n, ins);
      Success(Insert(Empty(n), ins))
  }

  // ---------------------------------------------------------------------
  // What each loader accepts

  /** The line l is accepted by the directed loader of an n-vertex graph
      and yields edge e from s. */
  predicate Yields(l: Line, n: nat, s: nat, e: Edge<Direction>) {
    && Within(l.src, l.dest, n) && l.src == s
    && e.dest == l.dest && e.dist == l.dist && DirectionOf(l.word) == Some(e.tag)
  }

  lemma {:induction false} DirectedInsertionsYield(lines: seq<Line>, n: nat, s: nat, e: Edge<Direction>)
    ensures (s, e) in DirectedInsertions(lines, n) <==> exists k :: 0 <= k < |lines| && Yields(lines[k], n, s, e)
  {
    if lines != [] {
      DirectedInsertionsYield(lines[1..], n, s, e);
      if exists k :: 0 <= k < |lines| && Yields(lines[k], n, s, e) {
        var k :| 0 <= k < |lines| && Yields(lines[k], n, s, e);
        if k > 0 {
          assert lines[1..][k - 1] == lines[k];
        }
      }
      if exists k :: 0 <= k < |lines[1..]| && Yields(lines[1..][k], n, s, e) {
        var k :| 0 <= k < |lines[1..]| && Yields(lines[1..][k], n, s, e);
        assert lines[k + 1] == lines[1..][k];
      }
    }
  }

  lemma LoadedYields(lines: seq<Line>, n: nat, s: nat, e: Edge<Direction>)
    ensures (s, e) in EdgeBag(Insert(Empty(n), DirectedInsertions(lines, n))) <==>
      exists k :: 0 <= k < |lines| && Yields(lines[k], n, s, e)
  {
    var ins := DirectedInsertions(lines, n);
    LoadedBag(n, ins);
    assert (s, e) in multiset(ins) <==> (s, e) in ins;
    DirectedInsertionsYield(lines, n, s, e);
  }

  /** After a directed load, an edge from s is in the graph exactly when
      some record read from the file names s, a known direction and
      in-range endpoints and carries that edge. */
  lemma DirectedLoadContents(toks: seq<Tok>, s: nat, e: Edge<Direction>)
    requires DecodeDirected(toks).Success?
    ensures (s, e) in EdgeBag(DecodeDirected(toks).value) <==>
      exists k :: 0 <= k < |Lines(toks[1..])| && Yields(Lines(toks[1..])[k], toks[0].n, s, e)
  {
    var n := Header(toks).value;
    var lines := Lines(toks[1..]);
    assert DecodeDirected(toks).value == Insert(Empty(n), DirectedInsertions(lines, n));
    assert n == toks[0].n;
    LoadedYields(lines, n, s, e);
    if (s, e) in EdgeBag(DecodeDirected(toks).value) {
      var k :| 0 <= k < |lines| && Yields(lines[k], n, s, e);
      assert Yields(Lines(toks[1..])[k], toks[0].n, s, e);
      assert exists j :: 0 <= j < |Lines(toks[1..])| && Yields(Lines(toks[1..])[j], toks[0].n, s, e);
    }
    if exists k :: 0 <= k < |Lines(toks[1..])| && Yields(Lines(toks[1..])[k], toks[0].n, s, e) {
      var k :| 0 <= k < |Lines(toks[1..])| && Yields(Lines(toks[1..])[k], toks[0].n, s, e);
      assert exists j :: 0 <= j < |lines| && Yields(lines[j], n, s, e);
    }
  }

  /** Every inserted edge of the two-way loader is matched by its reverse
      with the opposite direction, as often as it occurs. */
  lemma {:induction false} TwoWayCounts(lines: seq<Line>, n: nat, u: nat, v: nat, w: int, t: Direction)
    ensures multiset(TwoWayInsertions(lines, n))[(u, Edge(v, w, t))]
         == multiset(TwoWayInsertions(lines, n))[(v, Edge(u, w, Opposite(t)))]
  {
    if lines != [] {
      var l := lines[0];
      var d := DirectionOf(l.word);
      TwoWayCounts(lines[1..], n, u, v, w, t);
      OppositeInvolution(t);
      if d.Some? {
        OppositeInvolution(d.value);
      }
      var here :=
        if d.Some? && Within(l.src, l.dest, n) then
          [(l.src as nat, Edge(l.dest as nat, l.dist, d.value)), (l.dest as nat, Edge(l.src as nat, l.dist, Opposite(d.value)))]
        else [];
      assert TwoWayInsertions(lines, n) == here + TwoWayInsertions(lines[1..], n);
    }
  }

  /** After a two-way load, the road u -> v of distance w heading t occurs
      as often as v -> u of distance w heading the opposite way. */
  lemma TwoWayLoadOpposed(toks: seq<Tok>, u: nat, v: nat, w: int, t: Direction)
    requires DecodeTwoWay(toks).Success?
    ensures |DecodeTwoWay(toks).value| == toks[0].n
    ensures EdgeBag(DecodeTwoWay(toks).value)[(u, Edge(v, w, t))]
         == EdgeBag(DecodeTwoWay(toks).value)[(v, Edge(u, w, Opposite(t)))]
  {
    var n := toks[0].n;
    var ins := TwoWayInsertions(Lines(toks[1..]), n);
    LoadedBag(n, ins);
    TwoWayCounts(Lines(toks[1..]), n, u, v, w, t);
  }

  lemma {:induction false} RoadInsertionsSymmetric(ts: seq<Triple>, n: nat)
    ensures Symmetric(multiset(RoadInsertions(ts, n)))
  {
    if ts == [] {
      assert Symmetric(multiset(RoadInsertions(ts, n)));
    } else {
      var t := ts[0];
      RoadInsertionsSymmetric(ts[1..], n);
      var rest := multiset(RoadInsertions(ts[1..], n));
      if Within(t.src, t.dest, n) {
        SymmetricPair(rest, t.src as nat, t.dest as nat, t.dist, ());
        assert multiset(RoadInsertions(ts, n))
            == rest + multiset{(t.src as nat, Edge(t.dest as nat, t.dist, ())), (t.dest as nat, Edge(t.src as nat, t.dist, ()))};
      } else {
        assert RoadInsertions(ts, n) == RoadInsertions(ts[1..], n);
      }
    }
  }

  /** After an undirected load the edge bag is symmetric, and the graph
      has the vertex count of the header. */
  lemma RoadLoadSymmetric(toks: seq<Tok>)
    requires DecodeRoads(toks).Success?
    ensures |DecodeRoads(toks).value| == toks[0].n
    ensures Symmetric(EdgeBag(DecodeRoads(toks).value))
  {
    var n := toks[0].n;
    var ins := RoadInsertions(Triples(toks[1..]), n);
    LoadedBag(n, ins);
    RoadInsertionsSymmetric(Triples(toks[1..]), n);
    assert EdgeBag(DecodeRoads(toks).value) == multiset(ins);
  }

  // ---------------------------------------------------------------------
  // The loaders

  /** loadMapFromFile of the directed navigator. */
  method LoadDirected(toks: seq<Tok>) returns (r: Result<Graph<Direction>, LoadError>)
    ensures DecodeDirected(toks).Failure? ==> r == Failure(DecodeDirected(toks).error)
    ensures DecodeDirected(toks).Success? ==>
      r.Success? && fresh(r.value) && r.value.Valid() && r.value.V == toks[0].n && r.value.adj == DecodeDirected(toks).value
  {
    var h := Header(toks);
    if h.Failure? {
      return Failure(h.error);
    }
    var n := h.value;
    var g := new Graph<Direction>(n);
    ghost var all := DirectedInsertions(Lines(toks[1..]), n);
    var i := 1;
    while i + 4 <= |toks| && toks[i].Num? && toks[i + 1].Num? && toks[i + 2].Num?
      invariant 1 <= i <= |toks|
      invariant fresh(g) && g.Valid() && g.V == n
      invariant Insert(g.adj, DirectedInsertions(Lines(toks[i..]), n)) == Insert(Empty(n), all)
      decreases |toks| - i
    {
      var src, dest, dist := toks[i].n, toks[i + 1].n, toks[i + 2].n;
      var dir := DirectionOf(toks[i + 3]);
      assert toks[i..][4..] == toks[i + 4..];
      ghost var rest := DirectedInsertions(Lines(toks[i + 4..]), n);
      if dir.Some? && Within(src, dest, n) {
        var e := Edge(dest as nat, dist, dir.value);
        assert DirectedInsertions(Lines(toks[i..]), n) == [(src as nat, e)] + rest;
        g.Link(src, e);
      } else {
        assert DirectedInsertions(Lines(toks[i..]), n) == rest;
      }
      i := i + 4;
    }
    assert Lines(toks[i..]) == [];
    return Success(g);
  }

  /** loadMapFromFile of the two-way navigator. */
  method LoadTwoWay(toks: seq<Tok>) returns (r: Result<Graph<Direction>, LoadError>)
    ensures DecodeTwoWay(toks).Failure? ==> r == Failure(DecodeTwoWay(toks).error)
    ensures DecodeTwoWay(toks).Success? ==>
      r.Success? && fresh(r.value) && r.value.Valid() && r.value.V == toks[0].n && r.value.adj == DecodeTwoWay(toks).value
  {
    var h := Header(toks);
    if h.Failure? {
      return Failure(h.error);
    }
    var n := h.value;
    var g := new Graph<Direction>(n);
    ghost var all := TwoWayInsertions(Lines(toks[1..]), n);
    var i := 1;
    while i + 4 <= |toks| && toks[i].Num? && toks[i + 1].Num? && toks[i + 2].Num?
      invariant 1 <= i <= |toks|
      invariant fresh(g) && g.Valid() && g.V == n
      invariant Insert(g.adj, TwoWayInsertions(Lines(toks[i..]), n)) == Insert(Empty(n), all)
      decreases |toks| - i
    {
      var src, dest, dist := toks[i].n, toks[i + 1].n, toks[i + 2].n;
      var dir := DirectionOf(toks[i + 3]);
      assert toks[i..][4..] == toks[i + 4..];
      assert toks[i..][0] == toks[i] && toks[i..][1] == toks[i + 1] && toks[i..][2] == toks[i + 2] && toks[i..][3] == toks[i + 3];
      ghost var next := TwoWayStep(g.adj, toks[i..], n);
      if dir.Some? && Within(src, dest, n) {
        var fwd, bwd := Edge(dest as nat, dist, dir.value), Edge(src as nat, dist, Opposite(dir.value));
        ghost var a0 := g.adj;
        g.Link(src, fwd);
        ghost var a1 := g.adj;
        assert a1 == Prepend(a0, (src as nat, fwd)) by { assert src < |a0|; }
        g.Link(dest, bwd);
        assert g.adj == Prepend(a1, (dest as nat, bwd)) by { assert dest < |a1|; }
      }
      i := i + 4;
    }
    assert Lines(toks[i..]) == [];
    return Success(g);
  }

  /** loadMapFromFile of the undirected navigator. */
  method LoadRoads(toks: seq<Tok>) returns (r: Result<Graph<()>, LoadError>)
    ensures DecodeRoads(toks).Failure? ==> r == Failure(DecodeRoads(toks).error)
    ensures DecodeRoads(toks).Success? ==>
      r.Success? && fresh(r.value) && r.value.Valid() && r.value.V == toks[0].n && r.value.adj == DecodeRoads(toks).value
  {
    var h := Header(toks);
    if h.Failure? {
      return Failure(h.error);
    }
    var n := h.value;
    var g := new Graph<()>(n);
    ghost var all := RoadInsertions(Triples(toks[1..]), n);
    var i := 1;
    while i + 3 <= |toks| && toks[i].Num? && toks[i + 1].Num? && toks[i + 2].Num?
      invariant 1 <= i <= |toks|
      invariant fresh(g) && g.Valid() && g.V == n
      invariant Insert(g.adj, RoadInsertions(Triples(toks[i..]), n)) == Insert(Empty(n), all)
      decreases |toks| - i
    {
      var src, dest, dist := toks[i].n, toks[i + 1].n, toks[i + 2].n;
      assert toks[i..][3..] == toks[i + 3..];
      ghost var rest := RoadInsertions(Triples(toks[i + 3..]), n);
      if Within(src, dest, n) {
        var fwd, bwd := Edge(dest as nat, dist, ()), Edge(src as nat, dist, ());
        assert RoadInsertions(Triples(toks[i..]), n) == [(src as nat, fwd), (dest as nat, bwd)] + rest;
        assert [(src as nat, fwd), (dest as nat, bwd)] + rest == [(src as nat, fwd)] + ([(dest as nat, bwd)] + rest);
        g.Link(src, fwd);
        g.Link(dest, bwd);
      } else {
        assert RoadInsertions(Triples(toks[i..]), n) == rest;
      }
      i := i + 3;
    }
    assert Triples(toks[i..]) == [];
    return Success(g);
  }

  // ---------------------------------------------------------------------
  // The map file the builders write

  /** The records of the directed builder, "%d %d %d %s" each. */
  function DirectedBody(recs: seq<Record<Direction>>): (toks: seq<Tok>)
    ensures |toks| == 4 * |recs|
  {
    if recs == [] then []
    else
      var r := recs[0];
      [Num(r.src), Num(r.dest), Num(r.dist), Word(Name(r.tag))] + DirectedBody(recs[1..])
  }

  /** The records of the undirected builder, "%d %d %d" each. */
  function RoadBody(recs: seq<Record<()>>): (toks: seq<Tok>)
    ensures |toks| == 3 * |recs|
  {
    if recs == [] then []
    else
      var r := recs[0];
      [Num(r.src), Num(r.dest), Num(r.dist)] + RoadBody(recs[1..])
  }

  /** The edge each record stands for, placed at its source. */
  function Placements<L>(recs: seq<Record<L>>): (ins: seq<(nat, Edge<L>)>)
    ensures |ins| == |recs|
    ensures forall k :: 0 <= k < |recs| ==> ins[k] == (recs[k].src, Edge(recs[k].dest, recs[k].dist, recs[k].tag))
  {
    if recs == [] then []
    else [(recs[0].src, Edge(recs[0].dest, recs[0].dist, recs[0].tag))] + Placements(recs[1..])
  }

  ghost predicate RecordsWithin<L>(recs: seq<Record<L>>, n: nat) {
    forall k :: 0 <= k < |recs| ==> recs[k].src < n && recs[k].dest < n
  }

  /** Reading back the directed records inserts exactly their edges, in
      file order: every direction word parses and no record is dropped. */
  lemma {:induction false} DirectedBodyReads(recs: seq<Record<Direction>>, n: nat)
    requires RecordsWithin(recs, n)
    ensures DirectedInsertions(Lines(DirectedBody(recs)), n) == Placements(recs)
  {
    if recs != [] {
      var r := recs[0];
      var body := DirectedBody(recs);
      assert body[4..] == DirectedBody(recs[1..]);
      ParseName(r.tag);
      assert RecordsWithin(recs[1..], n) by {
        forall k | 0 <= k < |recs[1..]| ensures recs[1..][k].src < n && recs[1..][k].dest < n {
          assert recs[1..][k] == recs[k + 1];
        }
      }
      DirectedBodyReads(recs[1..], n);
    }
  }

  lemma {:induction false} AimedPlacements<L>(recs: seq<Record<L>>, s: nat)
    ensures Aimed(Placements(recs), s) == Outgoing(recs, s)
  {
    if recs != [] {
      AimedPlacements(recs[1..], s);
      assert Placements(recs)[1..] == Placements(recs[1..]);
    }
  }

  /** A map saved by the directed builder and loaded by the directed
      navigator keeps its vertex count and, vertex by vertex, its edges;
      each list comes back in reverse order, because the saver writes it
      head first and the loader prepends. */
  lemma DirectedRoundTrip(adj: seq<seq<Edge<Direction>>>)
    requires InRange(adj)
    ensures DecodeDirected([Num(|adj|)] + DirectedBody(Encode(adj))).Success?
    ensures var got := DecodeDirected([Num(|adj|)] + DirectedBody(Encode(adj))).value;
      && |got| == |adj|
      && forall s :: 0 <= s < |adj| ==> got[s] == Reverse(adj[s]) && multiset(got[s]) == multiset(adj[s])
  {
    var n := |adj|;
    var recs := Encode(adj);
    var toks := [Num(n)] + DirectedBody(recs);
    EncodeOrder(adj);
    assert toks[1..] == DirectedBody(recs);
    DirectedBodyReads(recs, n);
    var got := Insert(Empty(n), Placements(recs));
    assert DecodeDirected(toks) == Success(got);
    InsertLength(Empty(n), Placements(recs));
    forall s | 0 <= s < n ensures got[s] == Reverse(adj[s]) && multiset(got[s]) == multiset(adj[s]) {
      InsertStacks(Empty(n), Placements(recs), s);
      AimedPlacements(recs, s);
      ReversePreservesMultiset(adj[s]);
    }
  }

  /** The count of (u, e) in a list's bag: the count of e in the list when
      the list is that of u. */
  lemma {:induction false} ListBagCount<L>(u: nat, es: seq<Edge<L>>, p: (nat, Edge<L>))
    ensures ListBag(u, es)[p] == if p.0 == u then multiset(es)[p.1] else 0
  {
    if es != [] {
      ListBagCount(u, es[1..], p);
      assert es == [es[0]] + es[1..];
    }
  }

  /** The edge bag sees only how often each edge occurs in each list. */
  lemma {:induction false} EdgeBagOfMultisets<L>(a: seq<seq<Edge<L>>>, b: seq<seq<Edge<L>>>, p: (nat, Edge<L>))
    requires |a| == |b| && forall s :: 0 <= s < |a| ==> multiset(a[s]) == multiset(b[s])
    ensures EdgeBag(a)[p] == EdgeBag(b)[p]
    decreases |a|
  {
    if a != [] {
      var n := |a| - 1;
      EdgeBagOfMultisets(a[..n], b[..n], p);
      ListBagCount(n, a[n], p);
      ListBagCount(n, b[n], p);
    }
  }

  /** The edge bag of a store counts the edges its records stand for. */
  lemma EncodeBag<L>(adj: seq<seq<Edge<L>>>, p: (nat, Edge<L>))
    requires InRange(adj)
    ensures EdgeBag(adj)[p] == multiset(Placements(Encode(adj)))[p]
  {
    var n := |adj|;
    var recs := Encode(adj);
    EncodeOrder(adj);
    var got := Insert(Empty(n), Placements(recs));
    assert Targets(Placements(recs), n);
    LoadedBag(n, Placements(recs));
    forall s | 0 <= s < n ensures multiset(got[s]) == multiset(adj[s]) {
      InsertStacks(Empty(n), Placements(recs), s);
      AimedPlacements(recs, s);
      ReversePreservesMultiset(adj[s]);
    }
    EdgeBagOfMultisets(got, adj, p);
  }

  /** Each record's edge followed by its reverse. */
  function BothWays<L>(recs: seq<Record<L>>): seq<(nat, Edge<L>)> {
    if recs == [] then []
    else
      var r := recs[0];
      [(r.src, Edge(r.dest, r.dist, r.tag)), (r.dest, Edge(r.src, r.dist, r.tag))] + BothWays(recs[1..])
  }

  lemma {:induction false} RoadBodyReads(recs: seq<Record<()>>, n: nat)
    requires RecordsWithin(recs, n)
    ensures RoadInsertions(Triples(RoadBody(recs)), n) == BothWays(recs)
  {
    if recs != [] {
      assert recs[0].tag == ();
      assert RoadBody(recs)[3..] == RoadBody(recs[1..]);
      assert RecordsWithin(recs[1..], n) by {
        forall k | 0 <= k < |recs[1..]| ensures recs[1..][k].src < n && recs[1..][k].dest < n {
          assert recs[1..][k] == recs[k + 1];
        }
      }
      RoadBodyReads(recs[1..], n);
    }
  }

  lemma {:induction false} BothWaysCount<L>(recs: seq<Record<L>>, u: nat, v: nat, w: int, t: L)
    ensures multiset(BothWays(recs))[(u, Edge(v, w, t))]
         == multiset(Placements(recs))[(u, Edge(v, w, t))] + multiset(Placements(recs))[(v, Edge(u, w, t))]
  {
    if recs != [] {
      BothWaysCount(recs[1..], u, v, w, t);
      var r := recs[0];
      var f, b := (r.src, Edge(r.dest, r.dist, r.tag)), (r.dest, Edge(r.src, r.dist, r.tag));
      assert multiset(BothWays(recs)) == multiset{f, b} + multiset(BothWays(recs[1..])) by {
        assert BothWays(recs) == [f, b] + BothWays(recs[1..]);
      }
      assert multiset(Placements(recs)) == multiset{f} + multiset(Placements(recs[1..])) by {
        assert Placements(recs) == [f] + Placements(recs[1..]);
      }
    }
  }

  /** A map saved by the undirected builder and loaded by the undirected
      navigator keeps its vertex count, but every saved record becomes a
      pair: the road u -> v of distance w occurs as often as u -> v and
      v -> u together did before.  A store built by addEdge is symmetric,
      so after a reload each of its roads is there twice. */
  lemma RoadRoundTrip(adj: seq<seq<Edge<()>>>, u: nat, v: nat, w: int)
    requires InRange(adj)
    ensures DecodeRoads([Num(|adj|)] + RoadBody(Encode(adj))).Success?
    ensures var got := DecodeRoads([Num(|adj|)] + RoadBody(Encode(adj))).value;
      && |got| == |adj|
      && EdgeBag(got)[(u, Edge(v, w, ()))] == EdgeBag(adj)[(u, Edge(v, w, ()))] + EdgeBag(adj)[(v, Edge(u, w, ()))]
      && (Symmetric(EdgeBag(adj)) ==> EdgeBag(got)[(u, Edge(v, w, ()))] == 2 * EdgeBag(adj)[(u, Edge(v, w, ()))])
  {
    var n := |adj|;
    var recs := Encode(adj);
    var toks := [Num(n)] + RoadBody(recs);
    EncodeOrder(adj);
    assert toks[1..] == RoadBody(recs);
    RoadBodyReads(recs, n);
    var ins := RoadInsertions(Triples(RoadBody(recs)), n);
    assert DecodeRoads(toks) == Success(Insert(Empty(n), ins));
    LoadedBag(n, ins);
    EncodeBag(adj, (u, Edge(v, w, ())));
    EncodeBag(adj, (v, Edge(u, w, ())));
    BothWaysCount(recs, u, v, w, ());
  }
}
