/** The structural frontier: a score-free multi-source search, and its coincidence with visibility. */
module Frontier {
  import opened Csr
  import opened Transpose
  import opened Walks
  import opened Bfs
  import opened Reals
  import opened Scores
  import opened Reverse
  import opened Meaning
  import opened Agreement
  import opened Sorting

  /** Remote nodes (ids from `localEnd` on) within `maxDepth` hops of some local node. */
  ghost function RemoteWithin(g: Rows, localEnd: nat, maxDepth: nat): set<nat> {
    set v: nat | localEnd <= v < |g| && Near(g, localEnd, maxDepth, v)
  }

  ghost predicate Near(g: Rows, localEnd: nat, maxDepth: nat, v: nat) {
    exists r: nat, k: nat :: r < localEnd && k <= maxDepth && Hops(g, {}, r, v, k)
  }

  function Upto(n: nat): seq<nat> {
    seq(n, i requires 0 <= i < n => i)
  }

  ghost function FrontierSearch(g: Rows, maxDepth: nat): Search {
    Search(g, {}, {}, maxDepth)
  }

  datatype Stop = Stop(node: nat, depth: nat)

  ghost function Stops(order: seq<Visit>): seq<Stop> {
    seq(|order|, i requires 0 <= i < |order| => Stop(order[i].node, order[i].hops))
  }

  ghost predicate Flags(order: seq<Visit>, visited: seq<bool>) {
    forall v :: 0 <= v < |visited| ==> (visited[v] <==> Seen(order, v))
  }

  lemma FlagNext(order: seq<Visit>, visited: seq<bool>, x: Visit)
    requires Flags(order, visited) && x.node < |visited|
    ensures Flags(order + [x], visited[x.node := true])
  {
    forall v: nat | v < |visited| ensures Seen(order + [x], v) <==> Seen(order, v) || v == x.node {
      SeenPrefix(order, order + [x], v);
      assert (order + [x])[|order|] == x;
      if Seen(order + [x], v) {
        var i :| 0 <= i < |order + [x]| && (order + [x])[i].node == v;
        assert i < |order| ==> order[i].node == v;
      }
    }
  }

  lemma LocalsFirst(c: Search, localEnd: nat, n: nat, j: nat)
    requires Closed(c.g) && j < localEnd <= |c.g|
    ensures j < |Order(c, Upto(localEnd), n)| && Order(c, Upto(localEnd), n)[j].node == j
  {
    RootsStay(c, Upto(localEnd), n);
    assert Order(c, Upto(localEnd), n)[j] == Roots(c, Upto(localEnd))[j];
  }

  /** The first `localEnd` discoveries are the local nodes; everything after them is remote. */
  lemma BeyondLocal(c: Search, localEnd: nat, n: nat, i: nat)
    requires Closed(c.g) && c.avoid == {} && localEnd <= |c.g| && i < |Order(c, Upto(localEnd), n)|
    ensures i < localEnd <==> Order(c, Upto(localEnd), n)[i].node < localEnd
  {
    var order := Order(c, Upto(localEnd), n);
    OrderLevel(c, Upto(localEnd), n);
    if i < localEnd {
      LocalsFirst(c, localEnd, n, i);
    } else if order[i].node < localEnd {
      LocalsFirst(c, localEnd, n, order[i].node);
      assert false;
    }
  }

  ghost predicate Marching(c: Search, localEnd: nat, n: nat, queue: seq<Stop>, visited: seq<bool>, remote: nat)
    requires Closed(c.g) && localEnd <= |c.g|
  {
    var order := Order(c, Upto(localEnd), n);
    && n <= |order| && |visited| == |c.g|
    && queue == Stops(order[n..])
    && Flags(order, visited)
    && |order| == localEnd + remote
  }

  ghost predicate Scanning(c: Search, localEnd: nat, x: Visit, k: nat, start: seq<Visit>, order: seq<Visit>,
                           visited: seq<bool>, pushed: seq<Stop>)
    requires Closed(c.g) && x.node < |c.g| && k <= |c.g[x.node]|
  {
    && order == Scan(c, x, k, start) && start <= order && |visited| == |c.g|
    && pushed == Stops(order[|start|..]) && Flags(order, visited)
    && (forall v: nat :: v < localEnd ==> Seen(start, v))
  }

  lemma ScanNext(c: Search, localEnd: nat, x: Visit, k: nat, start: seq<Visit>, order: seq<Visit>,
                 visited: seq<bool>, pushed: seq<Stop>)
    requires Closed(c.g) && x.node < |c.g| && k < |c.g[x.node]| && c.avoid == {}
    requires Scanning(c, localEnd, x, k, start, order, visited, pushed)
    ensures var v := c.g[x.node][k];
            && v < |visited|
            && if visited[v] then Scanning(c, localEnd, x, k + 1, start, order, visited, pushed)
               else
                 && v >= localEnd
                 && Scanning(c, localEnd, x, k + 1, start, order + [Found(c, x, v)], visited[v := true],
                                              pushed + [Stop(v, x.hops + 1)])
  {
    var v := c.g[x.node][k];
    var y := Found(c, x, v);
    assert Below(c.g[x.node], |c.g|);
    if !visited[v] {
      FlagNext(order, visited, y);
      SeenPrefix(start, order, v);
      assert (order + [y])[|start|..] == order[|start|..] + [y];
    }
  }

  /** Scan one node's row, flagging, counting and queueing the new nodes. */
  method MarchFrom(ghost c: Search, g: Rows, localEnd: nat, node: nat, depth: nat, visited: array<bool>, remote: nat,
                   ghost start: seq<Visit>, ghost x: Visit)
    returns (remote': nat, pushed: seq<Stop>, ghost order: seq<Visit>)
    requires Closed(g) && c.g == g && c.avoid == {} && node < |g| && x.node == node && x.hops == depth
    requires Scanning(c, localEnd, x, 0, start, start, visited[..], [])
    modifies visited
    ensures Scanning(c, localEnd, x, |g[node]|, start, order, visited[..], pushed)
    ensures remote' == remote + |order| - |start|
  {
    remote', pushed, order := remote, [], start;
    for k := 0 to |g[node]|
      invariant visited.Length == |g|
      invariant Scanning(c, localEnd, x, k, start, order, visited[..], pushed)
      invariant remote' == remote + |order| - |start|
    {
      var next := g[node][k];
      ScanNext(c, localEnd, x, k, start, order, visited[..], pushed);
      if !visited[next] {
        ghost var before := visited[..];
        visited[next] := true;
        assert visited[..] == before[next := true];
        if next >= localEnd { remote' := remote' + 1; }
        pushed := pushed + [Stop(next, depth + 1)];
        order := order + [Found(c, x, next)];
      }
    }
  }

  lemma MarchReady(c: Search, localEnd: nat, n: nat, queue: seq<Stop>, visited: seq<bool>, remote: nat)
    requires Closed(c.g) && localEnd <= |c.g| && c.avoid == {}
    requires Marching(c, localEnd, n, queue, visited, remote) && queue != []
    ensures n < |Order(c, Upto(localEnd), n)| <= |c.g|
    ensures var order := Order(c, Upto(localEnd), n);
            && queue[0] == Stop(order[n].node, order[n].hops) && queue[1..] == Stops(order[n + 1..])
            && order[n].node < |c.g| && |order| == localEnd + remote
            && Scanning(c, localEnd, order[n], 0, order, order, visited, [])
  {
    var order := Order(c, Upto(localEnd), n);
    OrderShort(c, Upto(localEnd), n);
    RootsStay(c, Upto(localEnd), n);
    forall v: nat | v < localEnd ensures Seen(order, v) { assert order[v] == Roots(c, Upto(localEnd))[v]; }
    assert order[|order|..] == [];
    assert Stops(order[n..])[1..] == Stops(order[n + 1..]);
  }

  lemma Marched(c: Search, localEnd: nat, n: nat, order': seq<Visit>, visited': seq<bool>, pushed: seq<Stop>,
                remote: nat)
    requires Closed(c.g) && localEnd <= |c.g| && n < |Order(c, Upto(localEnd), n)|
    requires var order := Order(c, Upto(localEnd), n);
             && order[n].hops < c.bound && |order| == localEnd + remote
             && Scanning(c, localEnd, order[n], |c.g[order[n].node]|, order, order', visited', pushed)
    ensures var order := Order(c, Upto(localEnd), n);
            Marching(c, localEnd, n + 1, Stops(order[n + 1..]) + pushed, visited', remote + |order'| - |order|)
  {
    var order := Order(c, Upto(localEnd), n);
    assert order' == Order(c, Upto(localEnd), n + 1);
    assert Stops(order[n + 1..]) + Stops(order'[|order|..]) == Stops(order'[n + 1..]);
  }

  /** A node at the bound is not expanded. */
  lemma MarchSkips(c: Search, localEnd: nat, n: nat, queue: seq<Stop>, visited: seq<bool>, remote: nat)
    requires Closed(c.g) && localEnd <= |c.g| && c.avoid == {} && queue != []
    requires Marching(c, localEnd, n, queue, visited, remote) && queue[0].depth >= c.bound
    ensures Marching(c, localEnd, n + 1, queue[1..], visited, remote)
  {
    MarchReady(c, localEnd, n, queue, visited, remote);
  }

  /** Count the remote nodes reachable within `maxDepth` hops of the local ones. */
  method StructuralFrontierRemote(g: Rows, localEnd: nat, maxDepth: nat) returns (remote: nat)
    requires Closed(g) && localEnd <= |g|
    ensures remote == |RemoteWithin(g, localEnd, maxDepth)|
  {
    ghost var c := FrontierSearch(g, maxDepth);
    var visited := new bool[|g|](_ => false);
    var queue: seq<Stop> := [];
    for s := 0 to localEnd
      invariant forall v :: 0 <= v < |g| ==> (visited[v] <==> v < s)
      invariant queue == seq(s, i requires 0 <= i < s => Stop(i, 0))
    {
      visited[s] := true;
      queue := queue + [Stop(s, 0)];
    }
    remote := 0;
    ghost var n := 0;
    MarchStart(c, localEnd, queue, visited[..]);
    assert c.g == g && c.avoid == {} && c.bound == maxDepth && |visited[..]| == |g|;
    hide *;
    while queue != []
      invariant visited.Length == |g|
      invariant Marching(c, localEnd, n, queue, visited[..], remote) && n <= |g|
      decreases |g| - n
    {
      var Stop(node, depth) := queue[0];
      MarchReady(c, localEnd, n, queue, visited[..], remote);
      ghost var order := Order(c, Upto(localEnd), n);
      if depth >= maxDepth {
        MarchSkips(c, localEnd, n, queue, visited[..], remote);
        queue := queue[1..];
      } else {
        var pushed;
        ghost var order', remoteBefore := order, remote;
        remote, pushed, order' := MarchFrom(c, g, localEnd, node, depth, visited, remote, order, order[n]);
        Marched(c, localEnd, n, order', visited[..], pushed, remoteBefore);
        queue := queue[1..] + pushed;
      }
      n := n + 1;
    }
    MarchDone(c, localEnd, n, visited[..], remote);
  }

  lemma MarchStart(c: Search, localEnd: nat, queue: seq<Stop>, visited: seq<bool>)
    requires Closed(c.g) && localEnd <= |c.g| == |visited|
    requires forall v :: 0 <= v < |c.g| ==> (visited[v] <==> v < localEnd)
    requires queue == seq(localEnd, i requires 0 <= i < localEnd => Stop(i, 0))
    ensures Marching(c, localEnd, 0, queue, visited, 0)
  {
    var order := Order(c, Upto(localEnd), 0);
    assert order[0..] == order;
    forall v: nat | v < localEnd ensures Seen(order, v) { assert order[v].node == v; }
  }

  lemma MarchDone(c: Search, localEnd: nat, n: nat, visited: seq<bool>, remote: nat)
    requires Closed(c.g) && localEnd <= |c.g| && c.avoid == {} && Marching(c, localEnd, n, [], visited, remote)
    ensures remote == |RemoteWithin(c.g, localEnd, c.bound)|
  {
    var order := Order(c, Upto(localEnd), n);
    assert |Stops(order[n..])| == 0;
    OrderLevel(c, Upto(localEnd), n);
    var nodes := seq(remote, i requires 0 <= i < remote => order[localEnd + i].node);
    assert NoRepeats(nodes) by {
      forall i, j | 0 <= i < j < remote ensures nodes[i] != nodes[j] {
        assert order[localEnd + i].node != order[localEnd + j].node;
      }
    }
    SetSize(nodes);
    forall v: nat ensures v in nodes <==> v in RemoteWithin(c.g, localEnd, c.bound) {
      ReachedIsNear(c, localEnd, n, v);
      TailIsRemote(c, localEnd, n, nodes, v);
    }
    assert Elements(nodes) == RemoteWithin(c.g, localEnd, c.bound);
  }

  lemma TailIsRemote(c: Search, localEnd: nat, n: nat, nodes: seq<nat>, v: nat)
    requires Closed(c.g) && localEnd <= |c.g| && c.avoid == {} && |Order(c, Upto(localEnd), n)| == localEnd + |nodes|
    requires forall i :: 0 <= i < |nodes| ==> nodes[i] == Order(c, Upto(localEnd), n)[localEnd + i].node
    ensures v in nodes <==> v >= localEnd && Seen(Order(c, Upto(localEnd), n), v)
  {
    var order := Order(c, Upto(localEnd), n);
    if v in nodes {
      var i :| 0 <= i < |nodes| && nodes[i] == v;
      BeyondLocal(c, localEnd, n, localEnd + i);
      assert order[localEnd + i].node == v;
    }
    if v >= localEnd && Seen(order, v) {
      var i :| 0 <= i < |order| && order[i].node == v;
      BeyondLocal(c, localEnd, n, i);
      assert nodes[i - localEnd] == v;
    }
  }

  lemma ReachedIsNear(c: Search, localEnd: nat, n: nat, v: nat)
    requires Closed(c.g) && localEnd <= |c.g| && c.avoid == {} && |Order(c, Upto(localEnd), n)| <= n
    ensures Seen(Order(c, Upto(localEnd), n), v) <==> v < |c.g| && Near(c.g, localEnd, c.bound, v)
  {
    var roots := Upto(localEnd);
    var order := Order(c, roots, n);
    if Seen(order, v) {
      var i :| 0 <= i < |order| && order[i].node == v;
      OrderSound(c, roots, n, i);
      OrderLevel(c, roots, n);
      var r :| 0 <= r < |roots| && Hops(c.g, c.avoid, roots[r], v, order[i].hops);
      assert Near(c.g, localEnd, c.bound, v);
    }
    if Near(c.g, localEnd, c.bound, v) {
      var r: nat, k: nat :| r < localEnd && k <= c.bound && Hops(c.g, {}, r, v, k);
      assert roots[r] == r;
      assert FromRoots(c, roots, v, k);
      OrderComplete(c, roots, n, v, k);
    }
  }

  // ----- visibility -----

  /** A post by A is visible to R iff trust(A, R) is at least this. */
  const VISIBILITY_THRESHOLD: real := 0.45

  /** The remote authors visible to reader `r`. */
  ghost function Visible(g: Rows, r: nat, localEnd: nat): set<nat>
    requires Closed(g) && r < |g|
  {
    TransposeClosed(g);
    var scores := ReverseScores(Transposed(g), r, MAX_DEPTH);
    set v | v in scores && scores[v] >= VISIBILITY_THRESHOLD && v >= localEnd
  }

  /** Reverse search reports exactly those who reach the reader within the depth. */
  lemma ReverseReaches(g: Rows, a: nat, r: nat, maxDepth: nat)
    requires Closed(g) && a < |g| && r < |g| && a != r && maxDepth >= 1
    ensures Closed(Transposed(g)) && |Transposed(g)| == |g|
    ensures a in ReverseScores(Transposed(g), r, maxDepth) <==>
              exists k: nat :: k <= maxDepth && Hops(Transposed(g), {}, r, a, k)
  {
    ReverseMeaning(g, a, r, maxDepth);
    EvidenceIffHops(g, a, r, maxDepth);
    TransposeMirrors(g);
    var rg := Transposed(g);
    hide Transposed, ReverseEvidence, Hops, Closed, Mirrors;
    if k: nat :| k <= maxDepth && Hops(g, {}, a, r, k) { HopsMirror(g, rg, a, r, k); }
    if k: nat :| k <= maxDepth && Hops(rg, {}, r, a, k) { HopsMirror(rg, g, r, a, k); }
  }

  lemma EvidenceIffHops(g: Rows, a: nat, r: nat, maxDepth: nat)
    requires Closed(g) && a < |g| && a != r && maxDepth >= 1
    ensures ReverseEvidence(g, a, r, maxDepth) != map[] <==> exists k: nat :: k <= maxDepth && Hops(g, {}, a, r, k)
  {
    var e := ReverseEvidence(g, a, r, maxDepth);
    if e != map[] {
      var p :| p in e;
      DistMeaning(g, {}, p, r, maxDepth - 1);
      HopsCons(g, {}, a, p, r, Dist(g, {}, p, r, maxDepth - 1).value);
    }
    if k: nat :| k <= maxDepth && Hops(g, {}, a, r, k) {
      HopsZero(g, {}, a, r);
      var p := HopsUncons(g, {}, a, r, k - 1);
      HopsStart(g, {}, p, r, k - 1);
      DistMeaning(g, {}, p, r, maxDepth - 1);
      assert p in e;
    }
  }

  lemma HopsStart(g: Rows, avoid: set<nat>, u: nat, v: nat, k: nat)
    requires Hops(g, avoid, u, v, k)
    ensures u < |g|
  {}

  /** Whoever reverse search reports at the production depth is above the threshold. */
  lemma ReportedIsVisible(g: Rows, a: nat, r: nat)
    requires Closed(g) && a < |g| && r < |g| && a != r
    ensures Closed(Transposed(g)) && |Transposed(g)| == |g|
    ensures var scores := ReverseScores(Transposed(g), r, MAX_DEPTH);
            a in scores ==> scores[a] >= 0.49
  {
    ReverseMeaning(g, a, r, MAX_DEPTH);
    var e := ReverseEvidence(g, a, r, MAX_DEPTH);
    if e != map[] {
      var p :| p in e;
      EvidenceIsProbable(g, a, r, MAX_DEPTH);
      MissBelowEach(e, p, |g|);
      DistMeaning(g, {}, p, r, 2);
      PowAntitone(DECAY, Dist(g, {}, p, r, 2).value, 2);
      assert Pow(DECAY, 2) == DECAY * (DECAY * 1.0);
    }
  }

  /** Everyone visible to some local reader. */
  ghost function VisibleUnion(g: Rows, localEnd: nat): set<nat>
    requires Closed(g) && localEnd <= |g|
  {
    set v: nat | localEnd <= v < |g| && SomeoneSees(g, localEnd, v)
  }

  ghost predicate SomeoneSees(g: Rows, localEnd: nat, v: nat)
    requires Closed(g) && localEnd <= |g|
  {
    exists r: nat :: r < localEnd && v in Visible(g, r, localEnd)
  }

  lemma VisibleIffNear(g: Rows, r: nat, localEnd: nat, v: nat)
    requires Closed(g) && r < localEnd <= v < |g|
    ensures Closed(Transposed(g)) && |Transposed(g)| == |g|
    ensures v in Visible(g, r, localEnd) <==> exists k: nat :: k <= MAX_DEPTH && Hops(Transposed(g), {}, r, v, k)
  {
    ReverseReaches(g, v, r, MAX_DEPTH);
    ReportedIsVisible(g, v, r);
    hide ReverseScores, Hops, Transposed, Closed;
  }

  /** The threshold never bites: the union of visible authors is the structural frontier of the reverse graph. */
  lemma UnionIsFrontier(g: Rows, localEnd: nat)
    requires Closed(g) && localEnd <= |g|
    ensures VisibleUnion(g, localEnd) == RemoteWithin(Transposed(g), localEnd, MAX_DEPTH)
  {
    TransposeClosed(g);
    var rg := Transposed(g);
    forall v: nat | localEnd <= v < |g| ensures SomeoneSees(g, localEnd, v) <==> Near(rg, localEnd, MAX_DEPTH, v) {
      SeesIffNear(g, localEnd, v);
    }
  }

  lemma SeesIffNear(g: Rows, localEnd: nat, v: nat)
    requires Closed(g) && localEnd <= v < |g|
    ensures SomeoneSees(g, localEnd, v) <==> Near(Transposed(g), localEnd, MAX_DEPTH, v)
  {
    if SomeoneSees(g, localEnd, v) {
      var r: nat :| r < localEnd && v in Visible(g, r, localEnd);
      VisibleIffNear(g, r, localEnd, v);
    }
    if Near(Transposed(g), localEnd, MAX_DEPTH, v) {
      var r: nat, k: nat :| r < localEnd && k <= MAX_DEPTH && Hops(Transposed(g), {}, r, v, k);
      VisibleIffNear(g, r, localEnd, v);
    }
  }
}
