/** Forward search: a reader's trust in every author, one breadth-first search per first hop, interleaved. */
module Forward {
  import opened Csr
  import opened Bfs
  import opened Reals
  import opened Scores

  // ----- specification: each first hop searched on its own -----

  /** The search inside one group never re-enters the source. */
  ghost function GroupSearch(g: Rows, source: nat, distrusts: set<nat>, maxDepth: nat): Search
    requires maxDepth >= 1
  {
    Search(g, {source}, distrusts, maxDepth - 1)
  }

  ghost predicate FirstHop(g: Rows, source: nat, f: nat)
    requires source < |g|
  {
    f < |g| && f in g[source] && f != source
  }

  ghost function FirstHops(g: Rows, source: nat): set<nat>
    requires source < |g|
  {
    set f: nat | f < |g| && FirstHop(g, source, f)
  }

  ghost function ScoreOf(order: seq<Visit>, t: nat): real
    requires Seen(order, t)
  {
    var i :| 0 <= i < |order| && order[i].node == t;
    order[i].score
  }

  /** What each group's discoveries say about target `t`. */
  ghost function GroupsIn(found: map<nat, seq<Visit>>, t: nat): Groups {
    map f | f in found && Seen(found[f], t) :: ScoreOf(found[f], t)
  }

  /** Every first hop's finished search. */
  ghost function Searches(g: Rows, source: nat, distrusts: set<nat>, maxDepth: nat): map<nat, seq<Visit>>
    requires Closed(g) && source < |g| && maxDepth >= 1
  {
    map f | f in FirstHops(g, source) :: FullOrder(GroupSearch(g, source, distrusts, maxDepth), [f])
  }

  ghost function GroupsFor(g: Rows, source: nat, distrusts: set<nat>, maxDepth: nat, t: nat): Groups
    requires Closed(g) && source < |g| && maxDepth >= 1
  {
    GroupsIn(Searches(g, source, distrusts, maxDepth), t)
  }

  /** The scores of all reached targets; a directly distrusted target scores zero. */
  ghost function ForwardScores(g: Rows, source: nat, distrusts: set<nat>, maxDepth: nat): map<nat, real>
    requires Closed(g) && source < |g| && maxDepth >= 1
  {
    map t: nat | t < |g| && GroupsFor(g, source, distrusts, maxDepth, t) != map[] ::
      if t in distrusts then 0.0 else Combined(GroupsFor(g, source, distrusts, maxDepth, t), |g|)
  }

  // ----- linking the interleaved state to the separate searches -----

  datatype QueueItem = QueueItem(node: nat, depth: nat, firstHop: nat, score: real)

  function Tag(f: nat, x: Visit): QueueItem {
    QueueItem(x.node, x.hops + 1, f, x.score)
  }

  ghost function Tagged(f: nat, order: seq<Visit>): seq<QueueItem> {
    seq(|order|, i requires 0 <= i < |order| => Tag(f, order[i]))
  }

  ghost function Nodes(order: seq<Visit>): set<nat> {
    set i | 0 <= i < |order| :: order[i].node
  }

  lemma NodesSeen(order: seq<Visit>, v: nat)
    ensures v in Nodes(order) <==> Seen(order, v)
  {}

  lemma NodesSnoc(order: seq<Visit>, x: Visit)
    ensures Nodes(order + [x]) == Nodes(order) + {x.node}
  {
    var after := order + [x];
    assert after[|order|] == x;
    forall v ensures v in Nodes(after) <==> v in Nodes(order) + {x.node} {
      if v in Nodes(order) {
        var i :| 0 <= i < |order| && order[i].node == v;
        assert after[i] == order[i];
      }
    }
  }

  /** The queue entries of one group, in queue order. */
  ghost function Sub(queue: seq<QueueItem>, f: nat): seq<QueueItem> {
    if queue == [] then []
    else (if queue[0].firstHop == f then [queue[0]] else []) + Sub(queue[1..], f)
  }

  lemma {:induction false} SubConcat(a: seq<QueueItem>, b: seq<QueueItem>, f: nat)
    ensures Sub(a + b, f) == Sub(a, f) + Sub(b, f)
  {
    if a == [] {
      assert a + b == b;
    } else {
      var ab, rest := a + b, a[1..];
      assert ab[0] == a[0] && ab[1..] == rest + b;
      SubConcat(rest, b, f);
      var head := if a[0].firstHop == f then [a[0]] else [];
      assert Sub(ab, f) == head + Sub(rest + b, f);
      assert head + (Sub(rest, f) + Sub(b, f)) == head + Sub(rest, f) + Sub(b, f);
    }
  }

  lemma {:induction false} SubTagged(h: nat, order: seq<Visit>, f: nat)
    ensures Sub(Tagged(h, order), f) == if h == f then Tagged(h, order) else []
  {
    if order != [] {
      SubTagged(h, order[1..], f);
      assert Tagged(h, order)[1..] == Tagged(h, order[1..]);
    }
  }

  /** How far one group has got: `popped` discoveries expanded, and `extra` further copies of the first
      hop still queued, one for each parallel edge from the source. */
  datatype Progress = Progress(order: seq<Visit>, popped: nat, extra: nat)

  ghost function Copies(x: QueueItem, n: nat): seq<QueueItem> {
    seq(n, _ => x)
  }

  ghost predicate OnTrack(c: Search, f: nat, p: Progress, pending: seq<QueueItem>)
    requires Closed(c.g)
  {
    && f < |c.g| && f !in c.avoid
    && p.order == Order(c, [f], p.popped)
    && p.popped <= |p.order|
    && p.order != []
    && pending == Copies(Tag(f, p.order[0]), p.extra) + Tagged(f, p.order[p.popped..])
  }

  ghost function Orders(ps: map<nat, Progress>): map<nat, seq<Visit>> {
    map f | f in ps :: ps[f].order
  }

  /** The accumulators hold exactly what the groups have found so far. */
  ghost predicate Tracks(contents: map<nat, Groups>, found: map<nat, seq<Visit>>) {
    && (forall t :: t in contents ==> contents[t] == GroupsIn(found, t) && contents[t] != map[])
    && (forall t, f :: f in found && Seen(found[f], t) ==> t in contents)
  }

  lemma ScoreAt(order: seq<Visit>, i: nat)
    requires Distinct(order) && i < |order|
    ensures Seen(order, order[i].node) && ScoreOf(order, order[i].node) == order[i].score
  {}

  lemma ScoreSnoc(order: seq<Visit>, x: Visit, t: nat)
    requires Distinct(order) && !Seen(order, x.node)
    ensures Distinct(order + [x])
    ensures Seen(order + [x], t) <==> Seen(order, t) || t == x.node
    ensures Seen(order, t) ==> ScoreOf(order + [x], t) == ScoreOf(order, t)
    ensures Seen(order + [x], x.node) && ScoreOf(order + [x], x.node) == x.score
  {
    var after := order + [x];
    assert Distinct(after);
    assert after[|order|] == x;
    ScoreAt(after, |order|);
    if Seen(order, t) {
      var i :| 0 <= i < |order| && order[i].node == t;
      assert after[i] == order[i];
      ScoreAt(order, i);
      ScoreAt(after, i);
    }
  }

  lemma GroupsInNext(found: map<nat, seq<Visit>>, f: nat, x: Visit, t: nat)
    requires f in found && Distinct(found[f]) && !Seen(found[f], x.node)
    ensures GroupsIn(found[f := found[f] + [x]], t)
              == if t == x.node then GroupsIn(found, t)[f := x.score] else GroupsIn(found, t)
    ensures t == x.node ==> f !in GroupsIn(found, t)
  {
    ScoreSnoc(found[f], x, t);
  }

  /** A later discovery leaves every other target's accumulator right. */
  lemma TracksElsewhere(contents: map<nat, Groups>, found: map<nat, seq<Visit>>, f: nat, x: Visit, t: nat)
    requires Tracks(contents, found) && f in found && Distinct(found[f]) && !Seen(found[f], x.node)
    requires t != x.node
    ensures t in contents ==> contents[t] == GroupsIn(found[f := found[f] + [x]], t) && contents[t] != map[]
  {
    hide GroupsIn, Distinct, Seen;
    GroupsInNext(found, f, x, t);
  }

  lemma TracksAll(contents: map<nat, Groups>, found: map<nat, seq<Visit>>, f: nat, x: Visit, t: nat, h: nat)
    requires Tracks(contents, found) && f in found && Distinct(found[f]) && !Seen(found[f], x.node)
    requires h in found && Seen(found[f := found[f] + [x]][h], t)
    ensures t in contents || t == x.node
  {
    hide GroupsIn, Distinct, Seen;
    ScoreSnoc(found[f], x, t);
  }

  lemma TracksHere(contents: map<nat, Groups>, found: map<nat, seq<Visit>>, f: nat, x: Visit)
    requires Tracks(contents, found) && f in found && Distinct(found[f]) && !Seen(found[f], x.node)
    ensures var m := Recorded(At(contents, x.node), f, x.score);
            m == GroupsIn(found[f := found[f] + [x]], x.node) && m != map[]
  {
    assert At(contents, x.node) == GroupsIn(found, x.node);
    hide GroupsIn, Distinct, Seen;
    GroupsInNext(found, f, x, x.node);
    assert f in Recorded(At(contents, x.node), f, x.score);
  }

  /** A discovery recorded under its group keeps the accumulators in step. */
  lemma TracksNext(contents: map<nat, Groups>, found: map<nat, seq<Visit>>, f: nat, x: Visit)
    requires Tracks(contents, found) && f in found && Distinct(found[f]) && !Seen(found[f], x.node)
    ensures Tracks(contents[x.node := Recorded(At(contents, x.node), f, x.score)], found[f := found[f] + [x]])
  {
    var found' := found[f := found[f] + [x]];
    hide *;
    TracksHere(contents, found, f, x);
    var contents' := contents[x.node := Recorded(At(contents, x.node), f, x.score)];
    forall t | t in contents' ensures contents'[t] == GroupsIn(found', t) && contents'[t] != map[] {
      if t != x.node { TracksElsewhere(contents, found, f, x, t); }
    }
    forall t, h | h in found' && Seen(found'[h], t) ensures t in contents' {
      TracksAll(contents, found, f, x, t, h);
    }
    TracksIntro(contents', found');
  }

  lemma TracksIntro(contents: map<nat, Groups>, found: map<nat, seq<Visit>>)
    requires forall t :: t in contents ==> contents[t] == GroupsIn(found, t) && contents[t] != map[]
    requires forall t, f :: f in found && Seen(found[f], t) ==> t in contents
    ensures Tracks(contents, found)
  {}

  // ----- one pop -----

  function Untag(item: QueueItem): Visit
    requires item.depth >= 1
  {
    Visit(item.node, item.depth - 1, item.score)
  }

  ghost function Popped(c: Search, p: Progress, parent: Visit): Progress
    requires Closed(c.g) && parent.node < |c.g|
  {
    var order := Expand(c, parent, p.order);
    if p.popped == 0 || p.extra == 0 then Progress(order, p.popped + 1, p.extra)
    else Progress(order, p.popped, p.extra - 1)
  }

  lemma ExpandNothing(c: Search, parent: Visit, k: nat, order: seq<Visit>)
    requires Closed(c.g) && parent.node < |c.g| && k <= |c.g[parent.node]|
    requires forall v :: v in c.g[parent.node] && v !in c.avoid ==> Seen(order, v)
    ensures Scan(c, parent, k, order) == order
  {
    if k > 0 {
      ExpandNothing(c, parent, k - 1, order);
      assert c.g[parent.node][k - 1] in c.g[parent.node];
    }
  }

  lemma RepeatNothing(c: Search, f: nat, n: nat)
    requires Closed(c.g) && f < |c.g| && f !in c.avoid && n >= 1
    ensures var order := Order(c, [f], n); order != [] && Expand(c, order[0], order) == order
  {
    var order := Order(c, [f], n);
    RootsStay(c, [f], n);
    OrderCovered(c, [f], n, 0);
    if order[0].hops < c.bound {
      forall v | v in c.g[order[0].node] && v !in c.avoid ensures Seen(order, v) {
        assert SeenWithin(order, v, order[0].hops + 1);
      }
      ExpandNothing(c, order[0], |c.g[order[0].node]|, order);
    }
  }

  lemma PopFirst(c: Search, f: nat, p: Progress, pending: seq<QueueItem>)
    requires Closed(c.g) && OnTrack(c, f, p, pending) && p.popped == 0
    ensures pending != [] && pending[0] == Tag(f, p.order[0])
    ensures var after := Order(c, [f], 1);
            && p.order <= after && |p.order| == 1
            && OnTrack(c, f, Progress(after, 1, p.extra), pending[1..] + Tagged(f, after[1..]))
  {
    OrderExtends(c, [f], 0);
    var after := Order(c, [f], 1);
    var root := Tag(f, p.order[0]);
    assert p.order[0..] == p.order;
    assert Tagged(f, p.order) == [root];
    assert pending[1..] == Copies(root, p.extra);
    assert after[0] == p.order[0];
  }

  lemma PopCopy(c: Search, f: nat, p: Progress, pending: seq<QueueItem>)
    requires Closed(c.g) && OnTrack(c, f, p, pending) && p.popped > 0 && p.extra > 0
    ensures pending != [] && pending[0] == Tag(f, p.order[0])
    ensures Expand(c, p.order[0], p.order) == p.order
    ensures OnTrack(c, f, Progress(p.order, p.popped, p.extra - 1), pending[1..] + Tagged(f, p.order[|p.order|..]))
  {
    RepeatNothing(c, f, p.popped);
    var root := Tag(f, p.order[0]);
    var rest := Tagged(f, p.order[p.popped..]);
    assert p.order[|p.order|..] == [];
    assert pending[1..] + Tagged(f, []) == Copies(root, p.extra - 1) + rest;
  }

  lemma PopNext(c: Search, f: nat, p: Progress, pending: seq<QueueItem>)
    requires Closed(c.g) && OnTrack(c, f, p, pending) && p.extra == 0 && pending != []
    ensures p.popped < |p.order| && pending[0] == Tag(f, p.order[p.popped])
    ensures var after := Order(c, [f], p.popped + 1);
            && p.order <= after
            && OnTrack(c, f, Progress(after, p.popped + 1, 0), pending[1..] + Tagged(f, after[|p.order|..]))
  {
    var before, after := p.order, Order(c, [f], p.popped + 1);
    assert pending == Tagged(f, before[p.popped..]);
    OrderExtends(c, [f], p.popped);
    hide Order, Closed;
    assert after[0] == before[0];
    TaggedShift(f, before, after, p.popped);
    assert Copies(Tag(f, after[0]), 0) == [];
  }

  lemma TaggedShift(f: nat, before: seq<Visit>, after: seq<Visit>, n: nat)
    requires n < |before| && before <= after
    ensures Tagged(f, before[n..]) != []
    ensures Tagged(f, before[n..])[1..] + Tagged(f, after[|before|..]) == Tagged(f, after[n + 1..])
  {
    assert after[..|before|] == before;
  }

  /** Popping a group's first pending entry and appending what it discovers advances that group's own search. */
  lemma PopOnTrack(c: Search, f: nat, p: Progress, pending: seq<QueueItem>)
    requires Closed(c.g) && OnTrack(c, f, p, pending) && pending != []
    ensures pending[0].depth >= 1 && pending[0].node < |c.g|
    ensures var p' := Popped(c, p, Untag(pending[0]));
            p.order <= p'.order && OnTrack(c, f, p', pending[1..] + Tagged(f, p'.order[|p.order|..]))
  {
    assert InRange(c, p.order);
    if p.popped == 0 {
      PopFirst(c, f, p, pending);
    } else if p.extra > 0 {
      PopCopy(c, f, p, pending);
    } else {
      PopNext(c, f, p, pending);
    }
  }

  // ----- the whole queue -----

  ghost predicate State(c: Search, queue: seq<QueueItem>, ps: map<nat, Progress>, visited: map<nat, set<nat>>)
    requires Closed(c.g)
  {
    && visited.Keys == ps.Keys
    && (forall f :: f in ps ==> OnTrack(c, f, ps[f], Sub(queue, f)))
    && (forall f :: f in ps ==> visited[f] == Nodes(ps[f].order))
    && (forall f :: f !in ps ==> Sub(queue, f) == [])
  }

  lemma StatePop(c: Search, queue: seq<QueueItem>, ps: map<nat, Progress>, visited: map<nat, set<nat>>)
    requires Closed(c.g) && State(c, queue, ps, visited) && queue != []
    ensures var item := queue[0];
            && item.firstHop in ps && item.depth >= 1 && item.node < |c.g|
            && var f, p := item.firstHop, ps[item.firstHop];
               var p' := Popped(c, p, Untag(item));
               && p.order <= p'.order
               && State(c, queue[1..] + Tagged(f, p'.order[|p.order|..]), ps[f := p'], visited[f := Nodes(p'.order)])
  {
    var item := queue[0];
    var f := item.firstHop;
    assert Sub(queue, f)[0] == item;
    var p := ps[f];
    PopOnTrack(c, f, p, Sub(queue, f));
    var p' := Popped(c, p, Untag(item));
    var pushed := Tagged(f, p'.order[|p.order|..]);
    forall h: nat
      ensures Sub(queue[1..] + pushed, h) == if h == f then Sub(queue, f)[1..] + pushed else Sub(queue, h)
    {
      SubPop(queue, p'.order[|p.order|..], h);
    }
    StateUpdate(c, queue, queue[1..] + pushed, ps, visited, f, p');
  }

  lemma StateUpdate(c: Search, queue: seq<QueueItem>, queue': seq<QueueItem>, ps: map<nat, Progress>,
                    visited: map<nat, set<nat>>, f: nat, p': Progress)
    requires Closed(c.g) && State(c, queue, ps, visited)
    requires OnTrack(c, f, p', Sub(queue', f))
    requires forall h: nat :: h != f ==> Sub(queue', h) == Sub(queue, h)
    ensures State(c, queue', ps[f := p'], visited[f := Nodes(p'.order)])
  {
    hide OnTrack, Sub, Nodes, Closed;
  }

  lemma SubPop(queue: seq<QueueItem>, fresh': seq<Visit>, h: nat)
    requires queue != []
    ensures var f := queue[0].firstHop;
            Sub(queue[1..] + Tagged(f, fresh'), h)
              == if h == f then Sub(queue, f)[1..] + Tagged(f, fresh') else Sub(queue, h)
  {
    var f := queue[0].firstHop;
    SubConcat(queue[1..], Tagged(f, fresh'), h);
    SubTagged(f, fresh', h);
  }

  /** Pairs (first hop, node) not yet visited. */
  ghost function Unvisited(n: nat, visited: map<nat, set<nat>>): set<(nat, nat)> {
    set f: nat, v: nat | f in visited && v < n && v !in visited[f] :: (f, v)
  }

  lemma PopProgress(c: Search, f: nat, visited: map<nat, set<nat>>, order: seq<Visit>, order': seq<Visit>)
    requires f in visited && visited[f] == Nodes(order)
    requires order <= order' && order != order' && Distinct(order') && InRange(c, order')
    ensures Unvisited(|c.g|, visited[f := Nodes(order')]) < Unvisited(|c.g|, visited)
  {
    var x := order'[|order|].node;
    NodesSeen(order, x);
    NodesSeen(order', x);
    assert order'[..|order|] == order;
    assert (f, x) in Unvisited(|c.g|, visited);
    assert (f, x) !in Unvisited(|c.g|, visited[f := Nodes(order')]);
    forall v | v in Nodes(order) ensures v in Nodes(order') {
      NodesSeen(order, v); SeenPrefix(order, order', v); NodesSeen(order', v);
    }
  }

  /** With the queue empty every group's search is finished. */
  lemma StateDone(c: Search, ps: map<nat, Progress>, visited: map<nat, set<nat>>, f: nat)
    requires Closed(c.g) && State(c, [], ps, visited) && f in ps
    ensures f < |c.g| && f !in c.avoid && ps[f].order == FullOrder(c, [f])
  {
    var p := ps[f];
    assert OnTrack(c, f, p, []);
    assert |Copies(Tag(f, p.order[0]), p.extra) + Tagged(f, p.order[p.popped..])| == 0;
    OrderFinished(c, [f], p.popped);
  }

  // ----- the code -----

  function DistrustsOf(distrustSets: map<nat, set<nat>>, viewer: nat): set<nat> {
    if viewer in distrustSets then distrustSets[viewer] else {}
  }

  method CountReliability(row: seq<nat>, distrusts: set<nat>) returns (r: real)
    ensures r == Reliability(row, distrusts)
    ensures r == Pow(0.75, |DistrustedAt(row, distrusts)|)
  {
    var count := 0;
    for k := 0 to |row|
      invariant count == DistrustedIn(row[..k], distrusts)
    {
      assert row[..k + 1][..k] == row[..k];
      if row[k] in distrusts { count := count + 1; }
    }
    assert row[..|row|] == row;
    r := Pow(1.0 - DISTRUST_PENALTY, count);
    DistrustedCount(row, distrusts);
  }

  /** After `k` out-neighbours of `parent`, the group's visited set, the entries to push and the
      accumulators all reflect the scan. */
  ghost predicate Relaxed(c: Search, parent: Visit, f: nat, k: nat, found: map<nat, seq<Visit>>,
                          order: seq<Visit>, seen: set<nat>, pushed: seq<QueueItem>, contents: map<nat, Groups>)
    requires Closed(c.g) && parent.node < |c.g| && k <= |c.g[parent.node]| && f in found
  {
    && order == Scan(c, parent, k, found[f]) && found[f] <= order && Distinct(order)
    && seen == Nodes(order)
    && pushed == Tagged(f, order[|found[f]|..])
    && Tracks(contents, found[f := order])
  }

  lemma RelaxPush(c: Search, parent: Visit, f: nat, k: nat, found: map<nat, seq<Visit>>,
                  order: seq<Visit>, seen: set<nat>, pushed: seq<QueueItem>, contents: map<nat, Groups>)
    requires Closed(c.g) && parent.node < |c.g| && k < |c.g[parent.node]| && f in found
    requires Relaxed(c, parent, f, k, found, order, seen, pushed, contents)
    requires var v := c.g[parent.node][k]; v !in c.avoid && v !in seen
    ensures var x := Found(c, parent, c.g[parent.node][k]);
            Relaxed(c, parent, f, k + 1, found, order + [x], seen + {x.node}, pushed + [Tag(f, x)],
                    contents[x.node := Recorded(At(contents, x.node), f, x.score)])
  {
    var v := c.g[parent.node][k];
    var x := Found(c, parent, v);
    NodesSeen(order, v);
    TracksNext(contents, found[f := order], f, x);
    ScoreSnoc(order, x, v);
    NodesSnoc(order, x);
    assert found[f := order][f := order + [x]] == found[f := order + [x]];
    assert (order + [x])[|found[f]|..] == order[|found[f]|..] + [x];
  }

  lemma RelaxSkip(c: Search, parent: Visit, f: nat, k: nat, found: map<nat, seq<Visit>>,
                  order: seq<Visit>, seen: set<nat>, pushed: seq<QueueItem>, contents: map<nat, Groups>)
    requires Closed(c.g) && parent.node < |c.g| && k < |c.g[parent.node]| && f in found
    requires Relaxed(c, parent, f, k, found, order, seen, pushed, contents)
    requires var v := c.g[parent.node][k]; v in c.avoid || v in seen
    ensures Relaxed(c, parent, f, k + 1, found, order, seen, pushed, contents)
  {
    NodesSeen(order, c.g[parent.node][k]);
  }

  /** The scan is complete. */
  ghost predicate Relaxation(c: Search, parent: Visit, f: nat, found: map<nat, seq<Visit>>,
                             seen: set<nat>, pushed: seq<QueueItem>, contents: map<nat, Groups>)
    requires Closed(c.g) && parent.node < |c.g| && f in found
  {
    && parent.hops < c.bound
    && Relaxed(c, parent, f, |c.g[parent.node]|, found, Expand(c, parent, found[f]), seen, pushed, contents)
  }

  lemma RelaxationFacts(c: Search, parent: Visit, f: nat, found: map<nat, seq<Visit>>,
                        seen: set<nat>, pushed: seq<QueueItem>, contents: map<nat, Groups>)
    requires Closed(c.g) && parent.node < |c.g| && f in found && InRange(c, found[f])
    requires Relaxation(c, parent, f, found, seen, pushed, contents)
    ensures var order' := Expand(c, parent, found[f]);
            && found[f] <= order' && Distinct(order') && InRange(c, order')
            && (order' == found[f] <==> pushed == [])
            && seen == Nodes(order')
            && pushed == Tagged(f, order'[|found[f]|..])
            && Tracks(contents, found[f := order'])
  {
    ExpandInRange(c, parent, found[f]);
  }

  /** The body of the inner loop: `next` is out-neighbour `k` of the popped node, `nextRow` its own out-neighbours. */
  method RelaxOne(ghost c: Search, source: nat, distrusts: set<nat>, item: QueueItem, ghost k: nat, next: nat,
                  nextRow: seq<nat>, tg: TargetGroups, seen: set<nat>, pushed: seq<QueueItem>,
                  ghost found: map<nat, seq<Visit>>, ghost order: seq<Visit>)
    returns (tg': TargetGroups, seen': set<nat>, pushed': seq<QueueItem>, ghost order': seq<Visit>)
    requires Closed(c.g) && c == Search(c.g, {source}, distrusts, c.bound)
    requires item.node < |c.g| && 1 <= item.depth && k < |c.g[item.node]| && item.firstHop in found
    requires next == c.g[item.node][k] && nextRow == c.g[next]
    requires Separate(tg) && Relaxed(c, Untag(item), item.firstHop, k, found, order, seen, pushed, Contents(tg))
    modifies Accumulators(tg)
    ensures Separate(tg') && fresh(Accumulators(tg') - Accumulators(tg))
    ensures Relaxed(c, Untag(item), item.firstHop, k + 1, found, order', seen', pushed', Contents(tg'))
  {
    tg', seen', pushed', order' := tg, seen, pushed, order;
    if next == source || next in seen {
      RelaxSkip(c, Untag(item), item.firstHop, k, found, order, seen, pushed, Contents(tg));
    } else {
      var r := CountReliability(nextRow, distrusts);
      RelaxPush(c, Untag(item), item.firstHop, k, found, order, seen, pushed, Contents(tg));
      seen' := seen + {next};
      var nextScore := item.score * DECAY * r;
      assert Tag(item.firstHop, Found(c, Untag(item), next))
          == QueueItem(next, item.depth + 1, item.firstHop, nextScore);
      tg' := Record(tg, next, item.firstHop, nextScore);
      pushed' := pushed + [QueueItem(next, item.depth + 1, item.firstHop, nextScore)];
      order' := order + [Found(c, Untag(item), next)];
    }
  }

  /** The inner loop: scan the out-neighbours of one popped entry. */
  method Relax(ghost c: Search, g: Rows, source: nat, distrusts: set<nat>, item: QueueItem, tg: TargetGroups,
               seen: set<nat>, ghost found: map<nat, seq<Visit>>)
    returns (tg': TargetGroups, seen': set<nat>, pushed: seq<QueueItem>)
    requires Closed(g) && c == Search(g, {source}, distrusts, c.bound)
    requires item.node < |g| && 1 <= item.depth <= c.bound && item.firstHop in found
    requires Relaxed(c, Untag(item), item.firstHop, 0, found, found[item.firstHop], seen, [], Contents(tg))
    requires Separate(tg)
    modifies Accumulators(tg)
    ensures Separate(tg') && fresh(Accumulators(tg') - Accumulators(tg))
    ensures Relaxation(c, Untag(item), item.firstHop, found, seen', pushed, Contents(tg'))
  {
    ghost var order := found[item.firstHop];
    tg', seen', pushed := tg, seen, [];
    for k := 0 to |g[item.node]|
      invariant Separate(tg') && fresh(Accumulators(tg') - Accumulators(tg))
      invariant Relaxed(c, Untag(item), item.firstHop, k, found, order, seen', pushed, Contents(tg'))
    {
      var next := g[item.node][k];
      tg', seen', pushed, order :=
          RelaxOne(c, source, distrusts, item, k, next, g[next], tg', seen', pushed, found, order);
    }
  }

  // ----- seeding -----

  ghost predicate Seeded(c: Search, source: nat, k: nat, ps: map<nat, Progress>)
    requires Closed(c.g) && source < |c.g| && k <= |c.g[source]|
  {
    && (forall f :: f in ps <==> f in c.g[source][..k] && f != source)
    && (forall f :: f in ps ==> f < |c.g| && ps[f].popped == 0 && ps[f].order == Roots(c, [f]))
  }

  ghost function Planted(c: Search, ps: map<nat, Progress>, f: nat): Progress
    requires Closed(c.g) && f < |c.g|
  {
    if f in ps then ps[f].(extra := ps[f].extra + 1) else Progress(Roots(c, [f]), 0, 0)
  }

  /** `visited[f]` with `v` inserted, created on first use. */
  function Marked(visited: map<nat, set<nat>>, f: nat, v: nat): map<nat, set<nat>> {
    visited[f := (if f in visited then visited[f] else {}) + {v}]
  }

  lemma SeedSub(queue: seq<QueueItem>, item: QueueItem, h: nat)
    ensures Sub(queue + [item], h) == Sub(queue, h) + if h == item.firstHop then [item] else []
  {
    SubConcat(queue, [item], h);
    assert Sub([item], h) == if h == item.firstHop then [item] else [];
  }

  lemma SeedOnTrack(c: Search, ps: map<nat, Progress>, f: nat, pending: seq<QueueItem>)
    requires Closed(c.g) && f < |c.g| && f !in c.avoid
    requires if f in ps then OnTrack(c, f, ps[f], pending) && ps[f].popped == 0 else pending == []
    ensures OnTrack(c, f, Planted(c, ps, f), pending + [Tag(f, Roots(c, [f])[0])])
  {
    var roots := Roots(c, [f]);
    var item := Tag(f, roots[0]);
    assert roots[0..] == roots;
    assert Tagged(f, roots) == [item];
    var p' := Planted(c, ps, f);
    assert pending + [item] == Copies(item, p'.extra) + [item];
  }

  lemma SeedState(c: Search, source: nat, k: nat, queue: seq<QueueItem>, ps: map<nat, Progress>,
                  visited: map<nat, set<nat>>)
    requires Closed(c.g) && source < |c.g| && k < |c.g[source]| && c.avoid == {source} && c.g[source][k] != source
    requires State(c, queue, ps, visited) && Seeded(c, source, k, ps)
    ensures var f := c.g[source][k];
            State(c, queue + [Tag(f, Roots(c, [f])[0])], ps[f := Planted(c, ps, f)], Marked(visited, f, f))
  {
    var f := c.g[source][k];
    var item := Tag(f, Roots(c, [f])[0]);
    var p' := Planted(c, ps, f);
    SeedOnTrack(c, ps, f, Sub(queue, f));
    forall h: nat ensures Sub(queue + [item], h) == Sub(queue, h) + if h == f then [item] else [] {
      SeedSub(queue, item, h);
    }
    RootNodes(c, f);
    assert p'.order == Roots(c, [f]);
    assert f in visited ==> visited[f] == {f};
    assert Marked(visited, f, f)[f] == {f};
    StateUpdate(c, queue, queue + [item], ps, visited, f, p');
  }

  lemma RootNodes(c: Search, f: nat)
    requires f < |c.g|
    ensures Nodes(Roots(c, [f])) == {f}
  {
    assert Roots(c, [f])[0].node == f;
  }

  lemma SeedMore(c: Search, source: nat, k: nat, ps: map<nat, Progress>)
    requires Closed(c.g) && source < |c.g| && k < |c.g[source]| && Seeded(c, source, k, ps)
    ensures var f := c.g[source][k];
            Seeded(c, source, k + 1, if f == source then ps else ps[f := Planted(c, ps, f)])
  {
    assert c.g[source][..k + 1] == c.g[source][..k] + [c.g[source][k]];
  }

  lemma TracksEmptyGroup(contents: map<nat, Groups>, found: map<nat, seq<Visit>>, f: nat)
    requires Tracks(contents, found) && f !in found
    ensures Tracks(contents, found[f := []])
  {
    forall t ensures GroupsIn(found[f := []], t) == GroupsIn(found, t) { assert !Seen([], t); }
  }

  lemma SeedTracks(c: Search, contents: map<nat, Groups>, ps: map<nat, Progress>, f: nat)
    requires Closed(c.g) && f < |c.g|
    requires Tracks(contents, Orders(ps)) && (f in ps ==> ps[f].order == Roots(c, [f]))
    ensures Tracks(contents[f := Recorded(At(contents, f), f, Reliability(c.g[f], c.distrusts))],
                   Orders(ps[f := Planted(c, ps, f)]))
  {
    var x := Visit(f, 0, Reliability(c.g[f], c.distrusts));
    assert Roots(c, [f]) == [x];
    assert Planted(c, ps, f).order == [x];
    assert f in ps ==> Orders(ps)[f] == [x];
    OrdersUpdate(ps, f, Planted(c, ps, f));
    hide *;
    PlantTracks(contents, Orders(ps), f, x);
  }

  lemma PlantTracks(contents: map<nat, Groups>, found: map<nat, seq<Visit>>, f: nat, x: Visit)
    requires Tracks(contents, found) && x.node == f && (f in found ==> found[f] == [x])
    ensures Tracks(contents[f := Recorded(At(contents, f), f, x.score)], found[f := [x]])
  {
    if f in found {
      ScoreAt([x], 0);
      assert Seen(found[f], f) && GroupsIn(found, f)[f] == x.score;
      assert contents[f := contents[f]] == contents;
      assert found[f := [x]] == found;
    } else {
      var empty: map<nat, seq<Visit>> := found[f := []];
      assert !Seen([], f) && Distinct([]);
      assert empty[f] + [x] == [x] && empty[f := [x]] == found[f := [x]];
      hide *;
      TracksEmptyGroup(contents, found, f);
      TracksNext(contents, empty, f, x);
    }
  }

  ghost predicate Seeding(c: Search, source: nat, k: nat, queue: seq<QueueItem>, contents: map<nat, Groups>,
                             visited: map<nat, set<nat>>, ps: map<nat, Progress>)
    requires Closed(c.g) && source < |c.g| && k <= |c.g[source]|
  {
    State(c, queue, ps, visited) && Seeded(c, source, k, ps) && Tracks(contents, Orders(ps))
  }

  lemma SeedNothing(c: Search, source: nat)
    requires Closed(c.g) && source < |c.g|
    ensures Seeding(c, source, 0, [], map[], map[], map[])
  {}

  lemma SeedStep(c: Search, source: nat, k: nat, queue: seq<QueueItem>, contents: map<nat, Groups>,
                 visited: map<nat, set<nat>>, ps: map<nat, Progress>)
    requires Closed(c.g) && source < |c.g| && k < |c.g[source]| && c.avoid == {source}
    requires Seeding(c, source, k, queue, contents, visited, ps)
    ensures var f := c.g[source][k];
            var r := Reliability(c.g[f], c.distrusts);
            if f == source then Seeding(c, source, k + 1, queue, contents, visited, ps)
            else Seeding(c, source, k + 1, queue + [QueueItem(f, 1, f, r)],
                            contents[f := Recorded(At(contents, f), f, r)],
                            Marked(visited, f, f), ps[f := Planted(c, ps, f)])
  {
    var f := c.g[source][k];
    SeedMore(c, source, k, ps);
    if f != source {
      SeedState(c, source, k, queue, ps, visited);
      SeedTracks(c, contents, ps, f);
    }
  }

  /** The seeding loop. */
  method Seed(ghost c: Search, g: Rows, source: nat, distrusts: set<nat>)
    returns (queue: seq<QueueItem>, tg: TargetGroups, visited: map<nat, set<nat>>, ghost ps: map<nat, Progress>)
    requires Closed(g) && source < |g| && c == Search(g, {source}, distrusts, c.bound)
    ensures fresh(Accumulators(tg)) && Separate(tg)
    ensures Seeding(c, source, |g[source]|, queue, Contents(tg), visited, ps)
  {
    queue, tg, visited, ps := [], map[], map[], map[];
    hide Tracks, State, Seeded, Reliability, Orders, Marked, Planted;
    SeedNothing(c, source);
    assert Contents(tg) == map[];
    for k := 0 to |g[source]|
      invariant fresh(Accumulators(tg)) && Separate(tg)
      invariant Seeding(c, source, k, queue, Contents(tg), visited, ps)
    {
      var neighbor := g[source][k];
      var penalized := CountReliability(g[neighbor], distrusts);
      SeedStep(c, source, k, queue, Contents(tg), visited, ps);
      if neighbor == source { continue; }
      queue := queue + [QueueItem(neighbor, 1, neighbor, penalized)];
      tg := Record(tg, neighbor, neighbor, penalized);
      visited := Marked(visited, neighbor, neighbor);
      ps := ps[neighbor := Planted(c, ps, neighbor)];
    }
  }

  // ----- the main loop -----

  lemma OrdersUpdate(ps: map<nat, Progress>, f: nat, p: Progress)
    ensures Orders(ps[f := p]) == Orders(ps)[f := p.order]
    ensures f in ps ==> f in Orders(ps) && Orders(ps)[f] == ps[f].order && Orders(ps)[f := ps[f].order] == Orders(ps)
  {}

  lemma PoppedOrder(c: Search, p: Progress, parent: Visit)
    requires Closed(c.g) && parent.node < |c.g|
    ensures Popped(c, p, parent).order == Expand(c, parent, p.order)
    ensures parent.hops >= c.bound ==> Popped(c, p, parent).order == p.order
  {}

  lemma StateVisited(c: Search, queue: seq<QueueItem>, ps: map<nat, Progress>, visited: map<nat, set<nat>>, f: nat)
    requires Closed(c.g) && State(c, queue, ps, visited) && f in ps
    ensures f in visited && visited[f] == Nodes(ps[f].order) && visited[f := Nodes(ps[f].order)] == visited
    ensures Distinct(ps[f].order) && InRange(c, ps[f].order)
  {
    assert OnTrack(c, f, ps[f], Sub(queue, f));
    OrderLevel(c, [f], ps[f].popped);
  }

  lemma NothingNew(f: nat, order: seq<Visit>, queue: seq<QueueItem>)
    ensures Tagged(f, order[|order|..]) == [] && queue + Tagged(f, order[|order|..]) == queue
  {}

  /** A popped entry is ready to be relaxed. */
  lemma SearchReady(c: Search, queue: seq<QueueItem>, contents: map<nat, Groups>,
                    visited: map<nat, set<nat>>, ps: map<nat, Progress>)
    requires Closed(c.g) && State(c, queue, ps, visited) && Tracks(contents, Orders(ps)) && queue != []
    ensures var item := queue[0];
            && item.firstHop in ps && item.firstHop in visited && item.depth >= 1 && item.node < |c.g|
            && Relaxed(c, Untag(item), item.firstHop, 0, Orders(ps), Orders(ps)[item.firstHop],
                       visited[item.firstHop], [], contents)
  {
    StatePop(c, queue, ps, visited);
    var f := queue[0].firstHop;
    StateVisited(c, queue, ps, visited, f);
    OrdersUpdate(ps, f, ps[f]);
    NothingNew(f, ps[f].order, []);
  }

  /** Discarding an entry that is too deep to expand. */
  lemma SearchSkip(c: Search, queue: seq<QueueItem>, contents: map<nat, Groups>,
                   visited: map<nat, set<nat>>, ps: map<nat, Progress>)
    requires Closed(c.g) && State(c, queue, ps, visited) && Tracks(contents, Orders(ps))
    requires queue != [] && queue[0].depth > c.bound
    ensures var item := queue[0];
            && item.firstHop in ps && item.depth >= 1 && item.node < |c.g|
            && var ps' := ps[item.firstHop := Popped(c, ps[item.firstHop], Untag(item))];
               State(c, queue[1..], ps', visited) && Tracks(contents, Orders(ps'))
  {
    hide *;
    StatePop(c, queue, ps, visited);
    var item := queue[0];
    var f := item.firstHop;
    UntagHops(item);
    PoppedOrder(c, ps[f], Untag(item));
    StateVisited(c, queue, ps, visited, f);
    OrdersUpdate(ps, f, Popped(c, ps[f], Untag(item)));
    NothingNew(f, ps[f].order, queue[1..]);
  }

  lemma UntagHops(item: QueueItem)
    requires item.depth >= 1
    ensures Untag(item).hops == item.depth - 1 && Untag(item).node == item.node
  {}

  /** Whatever a relaxation finds keeps the search going, and uses up unvisited pairs. */
  lemma SearchAdvance(c: Search, queue: seq<QueueItem>, visited: map<nat, set<nat>>, ps: map<nat, Progress>,
                      seen': set<nat>, pushed: seq<QueueItem>, contents': map<nat, Groups>)
    requires Closed(c.g) && State(c, queue, ps, visited) && queue != []
    requires var item := queue[0];
             && item.firstHop in ps && item.depth >= 1 && item.node < |c.g|
             && Relaxation(c, Untag(item), item.firstHop, Orders(ps), seen', pushed, contents')
    ensures var item := queue[0];
            var f, visited' := item.firstHop, visited[item.firstHop := seen'];
            var ps' := ps[f := Popped(c, ps[f], Untag(item))];
            && State(c, queue[1..] + pushed, ps', visited') && Tracks(contents', Orders(ps'))
            && (pushed == [] ==> visited' == visited)
            && (pushed != [] ==> Unvisited(|c.g|, visited') < Unvisited(|c.g|, visited))
  {
    hide *;
    StatePop(c, queue, ps, visited);
    var item := queue[0];
    var f := item.firstHop;
    var p := ps[f];
    UntagHops(item);
    StateVisited(c, queue, ps, visited, f);
    PoppedOrder(c, p, Untag(item));
    var order' := Expand(c, Untag(item), p.order);
    OrdersUpdate(ps, f, Popped(c, p, Untag(item)));
    RelaxationFacts(c, Untag(item), f, Orders(ps), seen', pushed, contents');
    if pushed == [] {
      assert order' == p.order;
    } else {
      PopProgress(c, f, visited, p.order, order');
    }
  }

  lemma SeedDone(c: Search, source: nat, queue: seq<QueueItem>, contents: map<nat, Groups>,
                 visited: map<nat, set<nat>>, ps: map<nat, Progress>)
    requires Closed(c.g) && source < |c.g|
    requires Seeding(c, source, |c.g[source]|, queue, contents, visited, ps)
    ensures State(c, queue, ps, visited) && Tracks(contents, Orders(ps)) && ps.Keys == FirstHops(c.g, source)
  {
    assert c.g[source][..|c.g[source]|] == c.g[source];
  }

  lemma AllDone(c: Search, source: nat, distrusts: set<nat>, maxDepth: nat,
                visited: map<nat, set<nat>>, ps: map<nat, Progress>)
    requires Closed(c.g) && source < |c.g| && maxDepth >= 1 && c == GroupSearch(c.g, source, distrusts, maxDepth)
    requires State(c, [], ps, visited) && ps.Keys == FirstHops(c.g, source)
    ensures Orders(ps) == Searches(c.g, source, distrusts, maxDepth)
  {
    hide State, OnTrack, FullOrder, Closed;
    forall f | f in ps ensures ps[f].order == FullOrder(c, [f]) {
      StateDone(c, ps, visited, f);
    }
  }

  /** The whole search, before scores are combined. */
  method Explore(g: Rows, source: nat, distrusts: set<nat>, maxDepth: nat) returns (tg: TargetGroups)
    requires Closed(g) && source < |g| && maxDepth >= 1
    ensures fresh(Accumulators(tg)) && Separate(tg)
    ensures Tracks(Contents(tg), Searches(g, source, distrusts, maxDepth))
  {
    ghost var c := GroupSearch(g, source, distrusts, maxDepth);
    hide *;
    var queue: seq<QueueItem>, visited: map<nat, set<nat>>;
    ghost var ps: map<nat, Progress>;
    queue, tg, visited, ps := Seed(c, g, source, distrusts);
    SeedDone(c, source, queue, Contents(tg), visited, ps);
    while queue != []
      invariant fresh(Accumulators(tg)) && Separate(tg)
      invariant State(c, queue, ps, visited) && Tracks(Contents(tg), Orders(ps))
      invariant ps.Keys == FirstHops(g, source)
      decreases Unvisited(|g|, visited), |queue|
    {
      tg, queue, visited, ps := Step(c, g, source, distrusts, maxDepth, tg, queue, visited, ps);
    }
    AllDone(c, source, distrusts, maxDepth, visited, ps);
  }

  /** One iteration of the main loop. */
  method Step(ghost c: Search, g: Rows, source: nat, distrusts: set<nat>, maxDepth: nat, tg: TargetGroups,
              queue: seq<QueueItem>, visited: map<nat, set<nat>>, ghost ps: map<nat, Progress>)
    returns (tg': TargetGroups, queue': seq<QueueItem>, visited': map<nat, set<nat>>, ghost ps': map<nat, Progress>)
    requires Closed(g) && source < |g| && maxDepth >= 1 && c == GroupSearch(g, source, distrusts, maxDepth)
    requires Separate(tg) && State(c, queue, ps, visited) && Tracks(Contents(tg), Orders(ps)) && queue != []
    modifies Accumulators(tg)
    ensures Separate(tg') && fresh(Accumulators(tg') - Accumulators(tg))
    ensures State(c, queue', ps', visited') && Tracks(Contents(tg'), Orders(ps')) && ps'.Keys == ps.Keys
    ensures Unvisited(|g|, visited') < Unvisited(|g|, visited) || (visited' == visited && |queue'| < |queue|)
  {
    var item := queue[0];
    assert c == Search(g, {source}, distrusts, maxDepth - 1);
    hide *;
    SearchReady(c, queue, Contents(tg), visited, ps);
    tg' := tg;
    if item.depth >= maxDepth {
      SearchSkip(c, queue, Contents(tg), visited, ps);
      queue', visited' := queue[1..], visited;
    } else {
      var seen, pushed;
      tg', seen, pushed := Relax(c, g, source, distrusts, item, tg, visited[item.firstHop], Orders(ps));
      SearchAdvance(c, queue, visited, ps, seen, pushed, Contents(tg'));
      visited' := visited[item.firstHop := seen];
      queue' := queue[1..] + pushed;
    }
    ps' := ps[item.firstHop := Popped(c, ps[item.firstHop], Untag(item))];
  }

  lemma TracksBelow(g: Rows, source: nat, distrusts: set<nat>, maxDepth: nat, contents: map<nat, Groups>)
    requires Closed(g) && source < |g| && maxDepth >= 1
    requires Tracks(contents, Searches(g, source, distrusts, maxDepth))
    ensures KeysBelow(contents, |g|)
    ensures forall t: nat :: t in contents <==> t < |g| && GroupsFor(g, source, distrusts, maxDepth, t) != map[]
    ensures forall t :: t in contents ==> contents[t] == GroupsFor(g, source, distrusts, maxDepth, t)
  {
    var found := Searches(g, source, distrusts, maxDepth);
    forall t | t in contents ensures t < |g| {
      var f :| f in GroupsIn(found, t);
      assert InRange(GroupSearch(g, source, distrusts, maxDepth), found[f]);
    }
    forall t: nat | GroupsIn(found, t) != map[] ensures t in contents {
      var f :| f in GroupsIn(found, t);
      assert f in found && Seen(found[f], t);
    }
  }

  /** Trust of `source` in every author reachable within `maxDepth` hops. The interleaved queue gives exactly
      what searching each first hop separately would give. */
  method ForwardBfs(source: nat, g: Rows, distrustSets: map<nat, set<nat>>, maxDepth: nat)
    returns (results: map<nat, real>)
    requires Closed(g) && source < |g| && maxDepth >= 1
    ensures results == ForwardScores(g, source, DistrustsOf(distrustSets, source), maxDepth)
  {
    var distrusts := DistrustsOf(distrustSets, source);
    var tg := Explore(g, source, distrusts, maxDepth);
    TracksBelow(g, source, distrusts, maxDepth, Contents(tg));
    hide *;
    results := CombineAll(tg, |g|);
    CombinedIsForward(g, source, distrusts, maxDepth, Contents(tg), results);
    if distrusts != {} {
      results := Overridden(results, distrusts);
    }
  }

  lemma CombinedIsForward(g: Rows, source: nat, distrusts: set<nat>, maxDepth: nat, contents: map<nat, Groups>,
                          results: map<nat, real>)
    requires Closed(g) && source < |g| && maxDepth >= 1
    requires Tracks(contents, Searches(g, source, distrusts, maxDepth))
    requires results == CombinedScores(contents, |g|)
    ensures ForwardScores(g, source, distrusts, maxDepth)
              == map t | t in results :: if t in distrusts then 0.0 else results[t]
    ensures distrusts == {} ==> ForwardScores(g, source, distrusts, maxDepth) == results
  {
    hide GroupsFor, Tracks, Searches, Combined, Closed;
    TracksBelow(g, source, distrusts, maxDepth, contents);
    var forward := ForwardScores(g, source, distrusts, maxDepth);
    assert forward.Keys == results.Keys;
    forall t | t in forward ensures forward[t] == if t in distrusts then 0.0 else results[t] {
      assert contents[t] == GroupsFor(g, source, distrusts, maxDepth, t);
    }
  }

  /** Direct distrust overrides the propagated score. */
  method Overridden(results: map<nat, real>, distrusts: set<nat>) returns (r: map<nat, real>)
    ensures r == map t | t in results :: if t in distrusts then 0.0 else results[t]
  {
    r := results;
    var rest := results.Keys;
    while rest != {}
      invariant rest <= results.Keys && r.Keys == results.Keys
      invariant forall t :: t in r ==> r[t] == if t in distrusts && t !in rest then 0.0 else results[t]
    {
      var t :| t in rest;
      if t in distrusts { r := r[t := 0.0]; }
      rest := rest - {t};
    }
  }
}
