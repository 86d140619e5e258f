/** Reverse search: everyone's trust in one reader, in a single breadth-first pass over the transposed graph. */
module Reverse {
  import opened Csr
  import opened Walks
  import opened Bfs
  import opened Reals
  import opened Scores
  import opened Forward

  ghost function ReverseSearch(rg: Rows, maxDepth: nat): Search {
    Search(rg, {}, {}, maxDepth)
  }

  /** The groups that the expanded nodes `done` have recorded for `a`: one per expanded node with an edge to `a`. */
  ghost function Contrib(rg: Rows, maxDepth: nat, done: seq<Visit>, a: nat): Groups {
    if done == [] then map[]
    else
      var x := done[|done| - 1];
      var m := Contrib(rg, maxDepth, done[..|done| - 1], a);
      if x.hops < maxDepth && x.node < |rg| && a in rg[x.node] then m[x.node := Pow(DECAY, x.hops)] else m
  }

  /** The accumulators after `done` and, of `x`, the first `k` edges. */
  ghost predicate Tally(rg: Rows, maxDepth: nat, reader: nat, done: seq<Visit>, x: Visit, k: nat,
                        contents: map<nat, Groups>)
    requires x.node < |rg| && k <= |rg[x.node]|
  {
    forall a: nat ::
      && At(contents, a) == (if a == reader then map[]
                             else Contrib(rg, maxDepth, if a in rg[x.node][..k] then done + [x] else done, a))
      && (a in contents ==> contents[a] != map[])
  }

  /** The accumulators after `done`. */
  ghost predicate Tallied(rg: Rows, maxDepth: nat, reader: nat, done: seq<Visit>, contents: map<nat, Groups>) {
    forall a: nat ::
      && At(contents, a) == (if a == reader then map[] else Contrib(rg, maxDepth, done, a))
      && (a in contents ==> contents[a] != map[])
  }

  lemma {:induction false} ContribKeys(rg: Rows, maxDepth: nat, done: seq<Visit>, a: nat, p: nat)
    ensures p in Contrib(rg, maxDepth, done, a) <==>
              exists i :: 0 <= i < |done| && done[i].node == p && done[i].hops < maxDepth && p < |rg| && a in rg[p]
  {
    if done != [] {
      var init := done[..|done| - 1];
      ContribKeys(rg, maxDepth, init, a, p);
      if exists i :: 0 <= i < |done| && done[i].node == p && done[i].hops < maxDepth && p < |rg| && a in rg[p] {
        var i :| 0 <= i < |done| && done[i].node == p && done[i].hops < maxDepth && p < |rg| && a in rg[p];
        assert i < |init| ==> init[i] == done[i];
      }
      assert forall i :: 0 <= i < |init| ==> init[i] == done[i];
    }
  }

  lemma {:induction false} ContribScore(rg: Rows, maxDepth: nat, done: seq<Visit>, a: nat, i: nat)
    requires Distinct(done) && i < |done| && done[i].hops < maxDepth && done[i].node < |rg| && a in rg[done[i].node]
    ensures done[i].node in Contrib(rg, maxDepth, done, a)
    ensures Contrib(rg, maxDepth, done, a)[done[i].node] == Pow(DECAY, done[i].hops)
  {
    if i < |done| - 1 {
      ContribScore(rg, maxDepth, done[..|done| - 1], a, i);
    }
  }

  lemma TallyNone(rg: Rows, maxDepth: nat, reader: nat, done: seq<Visit>, x: Visit, contents: map<nat, Groups>)
    requires x.node < |rg|
    ensures Tally(rg, maxDepth, reader, done, x, 0, contents) <==> Tallied(rg, maxDepth, reader, done, contents)
  {
    assert rg[x.node][..0] == [];
  }

  lemma TallyAll(rg: Rows, maxDepth: nat, reader: nat, done: seq<Visit>, x: Visit, contents: map<nat, Groups>)
    requires x.node < |rg|
    requires Tally(rg, maxDepth, reader, done, x, |rg[x.node]|, contents)
    ensures Tallied(rg, maxDepth, reader, done + [x], contents)
  {
    var row := rg[x.node];
    assert row[..|row|] == row;
    assert (done + [x])[..|done|] == done;
  }

  /** A leaf that is too deep to expand contributes nothing. */
  lemma TallyLeaf(rg: Rows, maxDepth: nat, reader: nat, done: seq<Visit>, x: Visit, contents: map<nat, Groups>)
    requires Tallied(rg, maxDepth, reader, done, contents) && x.hops >= maxDepth
    ensures Tallied(rg, maxDepth, reader, done + [x], contents)
  {
    assert (done + [x])[..|done|] == done;
  }

  /** Recording edge `k` of `x`; a parallel edge finds its own earlier record and changes nothing. */
  lemma TallyNext(rg: Rows, maxDepth: nat, reader: nat, done: seq<Visit>, x: Visit, k: nat, contents: map<nat, Groups>)
    requires x.node < |rg| && k < |rg[x.node]| && x.hops < maxDepth && !Seen(done, x.node)
    requires Tally(rg, maxDepth, reader, done, x, k, contents)
    ensures var a := rg[x.node][k];
            Tally(rg, maxDepth, reader, done, x, k + 1,
                  if a == reader then contents
                  else contents[a := Recorded(At(contents, a), x.node, Pow(DECAY, x.hops))])
  {
    var row := rg[x.node];
    var a := row[k];
    assert row[..k + 1] == row[..k] + [a];
    ContribKeys(rg, maxDepth, done, a, x.node);
    assert (done + [x])[..|done|] == done;
  }

  // ----- the code's state -----

  datatype Entry = Entry(node: nat, depth: nat, score: real)

  ghost function AsEntry(x: Visit): Entry {
    Entry(x.node, x.hops, if x.hops == 0 then 1.0 else Pow(DECAY, x.hops - 1))
  }

  ghost function Entries(order: seq<Visit>): seq<Entry> {
    seq(|order|, i requires 0 <= i < |order| => AsEntry(order[i]))
  }

  /** While the edges of `x` are scanned: discoveries so far, the global visited set (without the reader),
      the entries to push, and the accumulators. */
  ghost predicate Spreading(c: Search, reader: nat, x: Visit, k: nat, start: seq<Visit>, order: seq<Visit>,
                            visited: set<nat>, pushed: seq<Entry>)
    requires Closed(c.g) && x.node < |c.g| && k <= |c.g[x.node]|
  {
    && start <= order && order == Scan(c, x, k, start) && Distinct(order)
    && Seen(start, reader)
    && visited == Nodes(order) - {reader}
    && pushed == Entries(order[|start|..])
  }

  lemma SpreadNext(c: Search, reader: nat, x: Visit, k: nat, start: seq<Visit>, order: seq<Visit>,
                   visited: set<nat>, pushed: seq<Entry>)
    requires Closed(c.g) && x.node < |c.g| && k < |c.g[x.node]| && c.avoid == {}
    requires Spreading(c, reader, x, k, start, order, visited, pushed)
    ensures var v := c.g[x.node][k];
            if v == reader || v in visited then Spreading(c, reader, x, k + 1, start, order, visited, pushed)
            else Spreading(c, reader, x, k + 1, start, order + [Found(c, x, v)], visited + {v},
                           pushed + [AsEntry(Found(c, x, v))])
  {
    var v := c.g[x.node][k];
    SeenPrefix(start, order, reader);
    NodesSeen(order, v);
    if v != reader && v !in visited {
      var y := Found(c, x, v);
      NodesSnoc(order, y);
      assert (order + [y])[|start|..] == order[|start|..] + [y];
    }
  }

  /** Scan the edges of one node: record its group with every neighbour, enqueue neighbours seen for the first
      time. The seeding loop is the same scan, started at the reader itself. */
  method Spread(ghost c: Search, reader: nat, rg: Rows, current: nat, depth: nat, nextScore: real, tg: TargetGroups,
                visited: set<nat>, ghost done: seq<Visit>, ghost x: Visit, ghost start: seq<Visit>)
    returns (tg': TargetGroups, visited': set<nat>, pushed: seq<Entry>, ghost order: seq<Visit>)
    requires Closed(rg) && c == ReverseSearch(rg, c.bound)
    requires x.node == current < |rg| && x.hops == depth < c.bound && nextScore == Pow(DECAY, depth)
    requires Separate(tg) && Tallied(rg, c.bound, reader, done, Contents(tg)) && !Seen(done, current)
    requires Spreading(c, reader, x, 0, start, start, visited, [])
    modifies Accumulators(tg)
    ensures Separate(tg') && fresh(Accumulators(tg') - Accumulators(tg))
    ensures Spreading(c, reader, x, |rg[current]|, start, order, visited', pushed)
    ensures Tallied(rg, c.bound, reader, done + [x], Contents(tg'))
  {
    tg', visited', pushed, order := tg, visited, [], start;
    TallyNone(rg, c.bound, reader, done, x, Contents(tg'));
    for k := 0 to |rg[current]|
      invariant Separate(tg') && fresh(Accumulators(tg') - Accumulators(tg))
      invariant Spreading(c, reader, x, k, start, order, visited', pushed)
      invariant Tally(rg, c.bound, reader, done, x, k, Contents(tg'))
    {
      tg', visited', pushed, order :=
        SpreadOne(c, reader, rg, current, depth, nextScore, k, tg', visited', pushed, done, x, start, order);
    }
    TallyAll(rg, c.bound, reader, done, x, Contents(tg'));
  }

  method SpreadOne(ghost c: Search, reader: nat, rg: Rows, current: nat, depth: nat, nextScore: real, k: nat,
                   tg: TargetGroups, visited: set<nat>, pushed: seq<Entry>,
                   ghost done: seq<Visit>, ghost x: Visit, ghost start: seq<Visit>, ghost order: seq<Visit>)
    returns (tg': TargetGroups, visited': set<nat>, pushed': seq<Entry>, ghost order': seq<Visit>)
    requires Closed(rg) && c == ReverseSearch(rg, c.bound)
    requires x.node == current < |rg| && x.hops == depth < c.bound && nextScore == Pow(DECAY, depth)
    requires k < |rg[current]| && !Seen(done, current)
    requires Separate(tg) && Tally(rg, c.bound, reader, done, x, k, Contents(tg))
    requires Spreading(c, reader, x, k, start, order, visited, pushed)
    modifies Accumulators(tg)
    ensures Separate(tg') && fresh(Accumulators(tg') - Accumulators(tg))
    ensures Spreading(c, reader, x, k + 1, start, order', visited', pushed')
    ensures Tally(rg, c.bound, reader, done, x, k + 1, Contents(tg'))
  {
    var next := rg[current][k];
    assert c.avoid == {};
    ghost var y := Found(c, x, next);
    assert AsEntry(y) == Entry(next, depth + 1, nextScore);
    hide *;
    SpreadNext(c, reader, x, k, start, order, visited, pushed);
    TallyNext(rg, c.bound, reader, done, x, k, Contents(tg));
    tg', visited', pushed', order' := tg, visited, pushed, order;
    if next == reader { return; }
    tg' := Record(tg, next, current, nextScore);
    if next !in visited {
      visited' := visited + {next};
      pushed' := pushed + [Entry(next, depth + 1, nextScore)];
      order' := order + [y];
    }
  }

  /** Everything discovered so far, the first `n` of it expanded. */
  ghost predicate Progressing(c: Search, reader: nat, n: nat, queue: seq<Entry>, visited: set<nat>,
                              contents: map<nat, Groups>)
    requires Closed(c.g) && reader < |c.g|
  {
    var order := Order(c, [reader], n);
    && 1 <= n <= |order|
    && queue == Entries(order[n..])
    && visited == Nodes(order) - {reader}
    && Tallied(c.g, c.bound, reader, order[..n], contents)
  }

  lemma ReadyToSpread(c: Search, reader: nat, n: nat)
    requires Closed(c.g) && reader < |c.g| && c.avoid == {} && n < |Order(c, [reader], n)|
    ensures var order := Order(c, [reader], n);
            && order[n].node < |c.g| && !Seen(order[..n], order[n].node)
            && Spreading(c, reader, order[n], 0, order, order, Nodes(order) - {reader}, [])
  {
    var order := Order(c, [reader], n);
    OrderLevel(c, [reader], n);
    RootsStay(c, [reader], n);
    assert order[0].node == reader;
    assert order[|order|..] == [];
  }

  /** A completed scan of node `n` is one more expansion of the search. */
  lemma Spreaded(c: Search, reader: nat, n: nat, order': seq<Visit>, visited': set<nat>, pushed: seq<Entry>,
                 contents': map<nat, Groups>)
    requires Closed(c.g) && reader < |c.g| && n < |Order(c, [reader], n)|
    requires var order := Order(c, [reader], n);
             && order[n].hops < c.bound
             && Spreading(c, reader, order[n], |c.g[order[n].node]|, order, order', visited', pushed)
             && Tallied(c.g, c.bound, reader, order[..n] + [order[n]], contents')
    ensures Progressing(c, reader, n + 1, Entries(Order(c, [reader], n)[n + 1..]) + pushed, visited', contents')
  {
    var order := Order(c, [reader], n);
    assert order' == Order(c, [reader], n + 1);
    assert order'[..n + 1] == order[..n] + [order[n]];
    assert Entries(order[n + 1..]) + Entries(order'[|order|..]) == Entries(order'[n + 1..]);
  }

  lemma SkippedLeaf(c: Search, reader: nat, n: nat, queue: seq<Entry>, visited: set<nat>, contents: map<nat, Groups>)
    requires Closed(c.g) && reader < |c.g| && Progressing(c, reader, n, queue, visited, contents)
    requires queue != [] && queue[0].depth >= c.bound
    ensures Progressing(c, reader, n + 1, queue[1..], visited, contents)
  {
    var order := Order(c, [reader], n);
    assert queue[0] == AsEntry(order[n]);
    TallyLeaf(c.g, c.bound, reader, order[..n], order[n], contents);
    assert order[..n + 1] == order[..n] + [order[n]];
    assert Entries(order[n..])[1..] == Entries(order[n + 1..]);
  }

  lemma StartState(c: Search, reader: nat)
    requires Closed(c.g) && reader < |c.g| && c.avoid == {}
    ensures var order := Order(c, [reader], 0);
            && |order| == 1 && order[0].node == reader && order[0].hops == 0
            && order[..0] == [] && order[1..] == []
            && Nodes(order) - {reader} == {}
    ensures Tallied(c.g, c.bound, reader, [], map[])
  {}

  /** Only the root is at distance zero. */
  lemma BeyondRoot(c: Search, reader: nat, n: nat, i: nat)
    requires Closed(c.g) && reader < |c.g| && c.avoid == {} && 1 <= i < |Order(c, [reader], n)|
    ensures Order(c, [reader], n)[i].hops >= 1
  {
    var order := Order(c, [reader], n);
    OrderLevel(c, [reader], n);
    RootsStay(c, [reader], n);
    assert order[0].node == reader;
    OrderSound(c, [reader], n, i);
    HopsZero(c.g, c.avoid, reader, order[i].node);
  }

  /** The head of the queue is discovery `n`. */
  lemma QueueHead(c: Search, reader: nat, n: nat, queue: seq<Entry>, visited: set<nat>, contents: map<nat, Groups>)
    requires Closed(c.g) && reader < |c.g| && c.avoid == {}
    requires Progressing(c, reader, n, queue, visited, contents) && queue != []
    ensures n < |Order(c, [reader], n)| <= |c.g|
    ensures var order := Order(c, [reader], n);
            && order[n].hops >= 1
            && queue[0] == Entry(order[n].node, order[n].hops, Pow(DECAY, order[n].hops - 1))
            && queue[1..] == Entries(order[n + 1..])
            && visited == Nodes(order) - {reader} && Tallied(c.g, c.bound, reader, order[..n], contents)
  {
    var order := Order(c, [reader], n);
    OrderShort(c, [reader], n);
    BeyondRoot(c, reader, n, n);
    assert queue[0] == AsEntry(order[n]);
    assert Entries(order[n..])[1..] == Entries(order[n + 1..]);
  }

  /** What each out-edge of `a` into the searched region says about `a`. */
  ghost function ReverseGroups(rg: Rows, reader: nat, maxDepth: nat, a: nat): Groups
    requires Closed(rg) && reader < |rg|
  {
    Contrib(rg, maxDepth, FullOrder(ReverseSearch(rg, maxDepth), [reader]), a)
  }

  ghost function ReverseScores(rg: Rows, reader: nat, maxDepth: nat): map<nat, real>
    requires Closed(rg) && reader < |rg|
  {
    map a: nat | a < |rg| && a != reader && ReverseGroups(rg, reader, maxDepth, a) != map[] ::
      Combined(ReverseGroups(rg, reader, maxDepth, a), |rg|)
  }

  /** Trust in `reader` of everyone who reaches them within `maxDepth` hops, given the transposed graph. */
  method ReverseBfs(reader: nat, rg: Rows, maxDepth: nat) returns (results: map<nat, real>)
    requires Closed(rg) && reader < |rg| && maxDepth >= 1
    ensures results == ReverseScores(rg, reader, maxDepth)
  {
    var tg := Sweep(reader, rg, maxDepth);
    TalliedBelow(rg, maxDepth, reader, Contents(tg));
    results := CombineAll(tg, |rg|);
    SweptScores(rg, reader, maxDepth, Contents(tg));
  }

  lemma TalliedBelow(rg: Rows, maxDepth: nat, reader: nat, contents: map<nat, Groups>)
    requires Closed(rg) && reader < |rg|
    requires Tallied(rg, maxDepth, reader, FullOrder(ReverseSearch(rg, maxDepth), [reader]), contents)
    ensures KeysBelow(contents, |rg|)
    ensures forall a: nat :: a in contents <==>
              a < |rg| && a != reader && ReverseGroups(rg, reader, maxDepth, a) != map[]
    ensures forall a: nat :: a in contents ==> contents[a] == ReverseGroups(rg, reader, maxDepth, a)
  {
    var done := FullOrder(ReverseSearch(rg, maxDepth), [reader]);
    forall a: nat ensures At(contents, a) == (if a == reader then map[] else ReverseGroups(rg, reader, maxDepth, a)) {}
    forall a, k | a in contents && k in contents[a] ensures k < |rg| && a < |rg| {
      ContribKeys(rg, maxDepth, done, a, k);
      assert Below(rg[k], |rg|);
    }
    forall a | a in contents ensures a < |rg| {
      var k :| k in contents[a];
    }
  }

  lemma SweptScores(rg: Rows, reader: nat, maxDepth: nat, contents: map<nat, Groups>)
    requires Closed(rg) && reader < |rg|
    requires Tallied(rg, maxDepth, reader, FullOrder(ReverseSearch(rg, maxDepth), [reader]), contents)
    ensures CombinedScores(contents, |rg|) == ReverseScores(rg, reader, maxDepth)
  {
    hide Tallied, ReverseGroups, Combined, Closed;
    TalliedBelow(rg, maxDepth, reader, contents);
  }

  method Sweep(reader: nat, rg: Rows, maxDepth: nat) returns (tg: TargetGroups)
    requires Closed(rg) && reader < |rg| && maxDepth >= 1
    ensures fresh(Accumulators(tg)) && Separate(tg)
    ensures Tallied(rg, maxDepth, reader, FullOrder(ReverseSearch(rg, maxDepth), [reader]), Contents(tg))
  {
    ghost var c := ReverseSearch(rg, maxDepth);
    var visited, queue;
    tg, visited, queue := SeedReverse(c, reader, rg);
    ghost var n := 1;
    while queue != []
      invariant fresh(Accumulators(tg)) && Separate(tg)
      invariant Progressing(c, reader, n, queue, visited, Contents(tg)) && n <= |rg|
      decreases |rg| - n
    {
      tg, visited, queue := SweepStep(c, reader, rg, maxDepth, n, tg, visited, queue);
      n := n + 1;
    }
    SweepDone(c, reader, n, visited, Contents(tg));
  }

  lemma SweepDone(c: Search, reader: nat, n: nat, visited: set<nat>, contents: map<nat, Groups>)
    requires Closed(c.g) && reader < |c.g| && c.avoid == {} && Progressing(c, reader, n, [], visited, contents)
    ensures Tallied(c.g, c.bound, reader, FullOrder(c, [reader]), contents)
  {
    var order := Order(c, [reader], n);
    assert |Entries(order[n..])| == 0;
    OrderFinished(c, [reader], n);
    assert order[..n] == order;
  }

  method SeedReverse(ghost c: Search, reader: nat, rg: Rows)
    returns (tg: TargetGroups, visited: set<nat>, queue: seq<Entry>)
    requires Closed(rg) && reader < |rg| && c == ReverseSearch(rg, c.bound) && c.bound >= 1
    ensures fresh(Accumulators(tg)) && Separate(tg)
    ensures Progressing(c, reader, 1, queue, visited, Contents(tg))
  {
    ghost var order := Order(c, [reader], 0);
    StartState(c, reader);
    ReadyToSpread(c, reader, 0);
    tg := map[];
    assert Contents(tg) == map[];
    tg, visited, queue, order := Spread(c, reader, rg, reader, 0, 1.0, tg, {}, [], order[0], order);
    Spreaded(c, reader, 0, order, visited, queue, Contents(tg));
    assert Entries([]) + queue == queue;
  }

  method SweepStep(ghost c: Search, reader: nat, rg: Rows, maxDepth: nat, ghost n: nat,
                   tg: TargetGroups, visited: set<nat>, queue: seq<Entry>)
    returns (tg': TargetGroups, visited': set<nat>, queue': seq<Entry>)
    requires Closed(rg) && reader < |rg| && c == ReverseSearch(rg, maxDepth) && queue != []
    requires Separate(tg) && Progressing(c, reader, n, queue, visited, Contents(tg))
    modifies Accumulators(tg)
    ensures Separate(tg') && fresh(Accumulators(tg') - Accumulators(tg))
    ensures Progressing(c, reader, n + 1, queue', visited', Contents(tg')) && n < |rg|
  {
    var Entry(current, depth, pathScore) := queue[0];
    assert c.avoid == {} && c.bound == maxDepth && c.g == rg;
    ghost var order := Order(c, [reader], n);
    assert depth > 0 ==> Pow(DECAY, depth) == DECAY * Pow(DECAY, depth - 1);
    hide *;
    QueueHead(c, reader, n, queue, visited, Contents(tg));
    tg', visited', queue' := tg, visited, queue[1..];
    if depth >= maxDepth {
      SkippedLeaf(c, reader, n, queue, visited, Contents(tg));
      return;
    }
    var nextScore := pathScore * DECAY;
    ReadyToSpread(c, reader, n);
    var pushed;
    ghost var order';
    tg', visited', pushed, order' :=
      Spread(c, reader, rg, current, depth, nextScore, tg, visited, order[..n], order[n], order);
    Spreaded(c, reader, n, order', visited', pushed, Contents(tg'));
    queue' := queue' + pushed;
  }
}
