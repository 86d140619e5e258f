/** The correctness oracle: the same search over a hash map of adjacency lists. */
module Reference {
  import opened Csr
  import opened Transpose
  import opened Bfs
  import opened Reals
  import opened Scores
  import opened Forward

  type Adjacency = map<nat, seq<nat>>

  /** Group the edges by source; users without out-edges get no entry. */
  method HashMapFromEdges(edges: seq<Edge>) returns (adj: Adjacency)
    ensures forall i: nat :: Lookup(adj, i) == Row(edges, i)
  {
    adj := map[];
    for k := 0 to |edges|
      invariant forall i: nat :: Lookup(adj, i) == Row(edges[..k], i)
    {
      var (src, tgt) := edges[k];
      forall i: nat { RowSnoc(edges, k, i); }
      adj := adj[src := (if src in adj then adj[src] else []) + [tgt]];
    }
    assert edges[..|edges|] == edges;
  }

  function Lookup(adj: Adjacency, i: nat): seq<nat> {
    if i in adj then adj[i] else []
  }

  /** The adjacency lists of nodes `0..n`, empty where the map has no entry. */
  ghost function Padded(adj: Adjacency, n: nat): Rows {
    seq(n, i requires 0 <= i < n => Lookup(adj, i))
  }

  /** `n` bounds every id that occurs; some such bound always exists and the code never needs it. */
  ghost predicate Bounds(adj: Adjacency, n: nat) {
    Closed(Padded(adj, n))
  }

  method RefSeed(ghost c: Search, adj: Adjacency, ghost n: nat, source: nat, distrusts: set<nat>)
    returns (queue: seq<QueueItem>, tg: TargetGroups, visited: map<nat, set<nat>>, ghost ps: map<nat, Progress>)
    requires Bounds(adj, n) && source < n && c == Search(Padded(adj, n), {source}, distrusts, c.bound)
    ensures fresh(Accumulators(tg)) && Separate(tg)
    ensures Seeding(c, source, |c.g[source]|, queue, Contents(tg), visited, ps)
  {
    queue, tg, visited, ps := [], map[], map[], map[];
    assert Contents(tg) == map[];
    SeedNothing(c, source);
    assert c.g[source] == Lookup(adj, source);
    if source !in adj { return; }
    var neighbors := adj[source];
    for k := 0 to |neighbors|
      invariant fresh(Accumulators(tg)) && Separate(tg)
      invariant Seeding(c, source, k, queue, Contents(tg), visited, ps)
    {
      queue, tg, visited, ps := RefSeedOne(c, adj, n, source, distrusts, k, neighbors[k], queue, tg, visited, ps);
    }
  }

  method RefSeedOne(ghost c: Search, adj: Adjacency, ghost n: nat, source: nat, distrusts: set<nat>, ghost k: nat,
                    neighbor: nat, queue: seq<QueueItem>, tg: TargetGroups, visited: map<nat, set<nat>>,
                    ghost ps: map<nat, Progress>)
    returns (queue': seq<QueueItem>, tg': TargetGroups, visited': map<nat, set<nat>>, ghost ps': map<nat, Progress>)
    requires Bounds(adj, n) && source < n && c == Search(Padded(adj, n), {source}, distrusts, c.bound)
    requires k < |c.g[source]| && neighbor == c.g[source][k]
    requires Separate(tg) && Seeding(c, source, k, queue, Contents(tg), visited, ps)
    modifies Accumulators(tg)
    ensures Separate(tg') && fresh(Accumulators(tg') - Accumulators(tg))
    ensures Seeding(c, source, k + 1, queue', Contents(tg'), visited', ps')
  {
    assert Below(c.g[source], n) && c.g[neighbor] == Lookup(adj, neighbor) && c.avoid == {source} && Closed(c.g)
        && |c.g| == n;
    hide *;
    queue', tg', visited', ps' := queue, tg, visited, ps;
    var r := CountReliability(Lookup(adj, neighbor), distrusts);
    SeedStep(c, source, k, queue, Contents(tg), visited, ps);
    if neighbor == source { return; }
    var penalized := 1.0 * r;
    queue' := queue + [QueueItem(neighbor, 1, neighbor, penalized)];
    tg' := Record(tg, neighbor, neighbor, penalized);
    visited' := Marked(visited, neighbor, neighbor);
    ps' := ps[neighbor := Planted(c, ps, neighbor)];
  }

  method RefRelax(ghost c: Search, adj: Adjacency, ghost n: nat, source: nat, distrusts: set<nat>, item: QueueItem,
                  tg: TargetGroups, seen: set<nat>, ghost found: map<nat, seq<Visit>>)
    returns (tg': TargetGroups, seen': set<nat>, pushed: seq<QueueItem>)
    requires Bounds(adj, n) && c == Search(Padded(adj, n), {source}, distrusts, c.bound)
    requires item.node < n && 1 <= item.depth <= c.bound && item.firstHop in found
    requires Relaxed(c, Untag(item), item.firstHop, 0, found, found[item.firstHop], seen, [], Contents(tg))
    requires Separate(tg)
    modifies Accumulators(tg)
    ensures Separate(tg') && fresh(Accumulators(tg') - Accumulators(tg))
    ensures Relaxation(c, Untag(item), item.firstHop, found, seen', pushed, Contents(tg'))
  {
    ghost var order := found[item.firstHop];
    tg', seen', pushed := tg, seen, [];
    assert c.g[item.node] == Lookup(adj, item.node);
    if item.node in adj {
      var neighbors := adj[item.node];
      for k := 0 to |neighbors|
        invariant Separate(tg') && fresh(Accumulators(tg') - Accumulators(tg))
        invariant Relaxed(c, Untag(item), item.firstHop, k, found, order, seen', pushed, Contents(tg'))
      {
        var next := neighbors[k];
        assert Below(c.g[item.node], n) && c.g[next] == Lookup(adj, next);
        tg', seen', pushed, order :=
          RelaxOne(c, source, distrusts, item, k, next, Lookup(adj, next), tg', seen', pushed, found, order);
      }
    }
  }

  method RefStep(ghost c: Search, adj: Adjacency, ghost n: nat, source: nat, distrusts: set<nat>, maxDepth: nat,
                 tg: TargetGroups, queue: seq<QueueItem>, visited: map<nat, set<nat>>, ghost ps: map<nat, Progress>)
    returns (tg': TargetGroups, queue': seq<QueueItem>, visited': map<nat, set<nat>>, ghost ps': map<nat, Progress>)
    requires Bounds(adj, n) && source < n && maxDepth >= 1
              && c == GroupSearch(Padded(adj, n), source, distrusts, maxDepth)
    requires Separate(tg) && State(c, queue, ps, visited) && Tracks(Contents(tg), Orders(ps)) && queue != []
    modifies Accumulators(tg)
    ensures Separate(tg') && fresh(Accumulators(tg') - Accumulators(tg))
    ensures State(c, queue', ps', visited') && Tracks(Contents(tg'), Orders(ps')) && ps'.Keys == ps.Keys
    ensures Unvisited(n, visited') < Unvisited(n, visited) || (visited' == visited && |queue'| < |queue|)
  {
    var item := queue[0];
    assert c == Search(Padded(adj, n), {source}, distrusts, maxDepth - 1) && |c.g| == n && Closed(c.g);
    hide *;
    SearchReady(c, queue, Contents(tg), visited, ps);
    tg' := tg;
    if item.depth >= maxDepth {
      SearchSkip(c, queue, Contents(tg), visited, ps);
      queue', visited' := queue[1..], visited;
    } else {
      var seen, pushed;
      tg', seen, pushed := RefRelax(c, adj, n, source, distrusts, item, tg, visited[item.firstHop], Orders(ps));
      SearchAdvance(c, queue, visited, ps, seen, pushed, Contents(tg'));
      visited' := visited[item.firstHop := seen];
      queue' := queue[1..] + pushed;
    }
    ps' := ps[item.firstHop := Popped(c, ps[item.firstHop], Untag(item))];
  }

  method RefExplore(adj: Adjacency, ghost n: nat, source: nat, distrusts: set<nat>, maxDepth: nat)
    returns (tg: TargetGroups)
    requires Bounds(adj, n) && source < n && maxDepth >= 1
    ensures fresh(Accumulators(tg)) && Separate(tg)
    ensures Tracks(Contents(tg), Searches(Padded(adj, n), source, distrusts, maxDepth))
  {
    ghost var g := Padded(adj, n);
    ghost var c := GroupSearch(g, source, distrusts, maxDepth);
    assert |g| == n && Closed(g) && c == Search(g, {source}, distrusts, maxDepth - 1);
    hide *;
    var queue: seq<QueueItem>, visited: map<nat, set<nat>>;
    ghost var ps: map<nat, Progress>;
    queue, tg, visited, ps := RefSeed(c, adj, n, source, distrusts);
    SeedDone(c, source, queue, Contents(tg), visited, ps);
    while queue != []
      invariant fresh(Accumulators(tg)) && Separate(tg)
      invariant State(c, queue, ps, visited) && Tracks(Contents(tg), Orders(ps))
      invariant ps.Keys == FirstHops(g, source)
      decreases Unvisited(n, visited), |queue|
    {
      tg, queue, visited, ps := RefStep(c, adj, n, source, distrusts, maxDepth, tg, queue, visited, ps);
    }
    AllDone(c, source, distrusts, maxDepth, visited, ps);
  }

  /** The oracle's result is the specification's, on the padded adjacency lists. */
  method ReferenceForwardBfs(source: nat, adj: Adjacency, ghost n: nat, distrustSets: map<nat, set<nat>>, maxDepth: nat)
    returns (results: map<nat, real>)
    requires Bounds(adj, n) && source < n && maxDepth >= 1
    ensures results == ForwardScores(Padded(adj, n), source, DistrustsOf(distrustSets, source), maxDepth)
  {
    var distrusts := DistrustsOf(distrustSets, source);
    ghost var g := Padded(adj, n);
    var tg := RefExplore(adj, n, source, distrusts, maxDepth);
    TracksBelow(g, source, distrusts, maxDepth, Contents(tg));
    hide *;
    results := CombineAll(tg, |g|);
    CombinedIsForward(g, source, distrusts, maxDepth, Contents(tg), results);
    if distrusts != {} {
      results := Overridden(results, distrusts);
    }
  }

  /** Run the engine on the CSR graph and the oracle on the hash map of one edge list: the same map of scores. */
  method CompareWithOracle(n: nat, edges: seq<Edge>, source: nat, distrustSets: map<nat, set<nat>>)
    returns (engine: map<nat, real>, oracle: map<nat, real>)
    requires EndpointsBelow(n, edges) && source < n
    ensures Closed(RowsOf(n, edges))
    ensures engine == oracle == ForwardScores(RowsOf(n, edges), source, DistrustsOf(distrustSets, source), MAX_DEPTH)
  {
    var csr := FromEdges(n, edges);
    RowsClosed(n, edges);
    engine := ForwardBfs(source, csr.View(), distrustSets, MAX_DEPTH);
    var adj := HashMapFromEdges(edges);
    assert Padded(adj, n) == RowsOf(n, edges);
    oracle := ReferenceForwardBfs(source, adj, n, distrustSets, MAX_DEPTH);
  }
}
