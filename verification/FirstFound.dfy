/** With distrusts a group keeps the first path found, which need not be the best one: exactly when it is. */
module FirstFound {
  import opened Csr
  import opened Options
  import opened Walks
  import opened Bfs
  import opened Reals
  import opened Forward
  import opened Distrust

  /** The score a walk earns on its own: one reliability per node, one decay per hop. */
  ghost function PathScore(g: Rows, distrusts: set<nat>, p: seq<nat>): real
    requires p != [] && forall i :: 0 <= i < |p| ==> p[i] < |g|
  {
    var r := Reliability(g[p[|p| - 1]], distrusts);
    if |p| == 1 then r else PathScore(g, distrusts, p[..|p| - 1]) * DECAY * r
  }

  /** The group of first hop `f` reports for `t` a score that none of its walks beats. */
  ghost predicate KeepsBest(g: Rows, source: nat, distrusts: set<nat>, maxDepth: nat, f: nat, t: nat)
    requires Closed(g) && source < |g| && maxDepth >= 1 && FirstHop(g, source, f)
    requires f in GroupsFor(g, source, distrusts, maxDepth, t)
  {
    forall p :: WalkBetween(g, {source}, f, t, p) && |p| <= maxDepth ==>
                  PathScore(g, distrusts, p) <= GroupsFor(g, source, distrusts, maxDepth, t)[f]
  }

  // ----- who finds a node -----

  lemma {:induction false} ScanFrom(c: Search, parent: Visit, k: nat, order: seq<Visit>, i: nat)
    requires Closed(c.g) && parent.node < |c.g| && k <= |c.g[parent.node]|
    requires |order| <= i < |Scan(c, parent, k, order)|
    ensures Scan(c, parent, k, order)[i].node in c.g[parent.node][..k]
  {
    var row := c.g[parent.node];
    if k > 0 {
      assert row[..k] == row[..k - 1] + [row[k - 1]];
      if i < |Scan(c, parent, k - 1, order)| {
        ScanFrom(c, parent, k - 1, order, i);
        ScanFacts(c, parent, k - 1, order);
      }
    }
  }

  ghost predicate FoundBy(c: Search, order: seq<Visit>, i: nat, j: nat)
    requires InRange(c, order) && i < |order| && j < |order|
  {
    && j < i && order[j].hops < c.bound
    && order[i].node in c.g[order[j].node]
    && order[i] == Found(c, order[j], order[i].node)
    && forall k :: 0 <= k < j ==> order[i].node !in c.g[order[k].node]
  }

  /** Every node past the roots is found by the first node of the order that points to it. */
  lemma {:induction false} Finder(c: Search, roots: seq<nat>, n: nat, i: nat) returns (j: nat)
    requires Closed(c.g) && DistinctRoots(c, roots) && |roots| <= i < |Order(c, roots, n)|
    ensures j < |Order(c, roots, n)| && FoundBy(c, Order(c, roots, n), i, j)
  {
    assert n > 0 && i >= |Order(c, roots, 0)|;
    var before, after := Order(c, roots, n - 1), Order(c, roots, n);
    OrderExtends(c, roots, n - 1);
    if i < |before| {
      j := Finder(c, roots, n - 1, i);
      hide *;
      FoundStays(c, before, after, i, j);
    } else {
      j := n - 1;
      JustFound(c, roots, j, i);
    }
  }

  lemma FoundStays(c: Search, before: seq<Visit>, after: seq<Visit>, i: nat, j: nat)
    requires before <= after && InRange(c, before) && InRange(c, after) && i < |before| && j < |before|
    requires FoundBy(c, before, i, j)
    ensures FoundBy(c, after, i, j)
  {
    hide Found;
    assert forall k :: 0 <= k < |before| ==> after[k] == before[k];
  }

  /** What the expansion of node `j` adds was pointed to by no earlier node. */
  lemma JustFound(c: Search, roots: seq<nat>, j: nat, i: nat)
    requires Closed(c.g) && DistinctRoots(c, roots)
    requires |Order(c, roots, j)| <= i < |Order(c, roots, j + 1)|
    ensures j < |Order(c, roots, j)| <= |Order(c, roots, j + 1)| && FoundBy(c, Order(c, roots, j + 1), i, j)
  {
    var before, after := Order(c, roots, j), Order(c, roots, j + 1);
    assert j < |before| && after == Expand(c, before[j], before);
    OrderExtends(c, roots, j);
    OrderLevel(c, roots, j + 1);
    ScanFacts(c, before[j], |c.g[before[j].node]|, before);
    hide Order, Scan, Found;
    var v := after[i].node;
    assert forall k :: 0 <= k < |before| ==> after[k] == before[k];
    assert !Seen(before, v);
    forall k | 0 <= k < j ensures v !in c.g[after[k].node] {
      assert before[k] == after[k];
      OrderCovered(c, roots, j, k);
    }
  }

  /** Whatever the depth, the score of a discovery is the score of a shortest walk to it. */
  lemma {:induction false} ScoreOfShortestWalk(c: Search, f: nat, n: nat, i: nat) returns (p: seq<nat>)
    requires Closed(c.g) && f < |c.g| && f !in c.avoid && i < |Order(c, [f], n)|
    ensures var x := Order(c, [f], n)[i];
            && WalkBetween(c.g, c.avoid, f, x.node, p) && |p| == x.hops + 1
            && x.score == PathScore(c.g, c.distrusts, p)
    decreases i
  {
    var order := Order(c, [f], n);
    RootsStay(c, [f], n);
    OrderLevel(c, [f], n);
    if i == 0 {
      p := [f];
    } else {
      var j := Finder(c, [f], n, i);
      var q := ScoreOfShortestWalk(c, f, n, j);
      hide Order;
      p := q + [order[i].node];
      assert p[..|q|] == q;
      StepScore(c, q, order[j], order[i].node);
    }
  }

  lemma StepScore(c: Search, q: seq<nat>, x: Visit, v: nat)
    requires IsWalk(c.g, c.avoid, q) && q[|q| - 1] == x.node && v < |c.g| && v !in c.avoid && v in c.g[x.node]
    requires x.score == PathScore(c.g, c.distrusts, q)
    ensures IsWalk(c.g, c.avoid, q + [v])
    ensures Found(c, x, v).score == PathScore(c.g, c.distrusts, q + [v])
  {
    hide Reliability, DECAY;
    var p := q + [v];
    assert p[..|q|] == q;
    assert forall i :: 0 <= i < |q| ==> p[i] == q[i];
    assert PathScore(c.g, c.distrusts, p) == PathScore(c.g, c.distrusts, q) * DECAY * Reliability(c.g[v], c.distrusts);
  }

  /** At every depth, a group's score for a target is the score of one of the group's shortest walks to it. */
  lemma GroupScoreIsWalk(g: Rows, source: nat, distrusts: set<nat>, maxDepth: nat, f: nat, t: nat) returns (p: seq<nat>)
    requires Closed(g) && source < |g| && maxDepth >= 1 && FirstHop(g, source, f)
    requires f in GroupsFor(g, source, distrusts, maxDepth, t)
    ensures WalkBetween(g, {source}, f, t, p) && Dist(g, {source}, f, t, maxDepth - 1) == Some(|p| - 1)
    ensures GroupsFor(g, source, distrusts, maxDepth, t)[f] == PathScore(g, distrusts, p)
  {
    var c := GroupSearch(g, source, distrusts, maxDepth);
    assert f < |g| && f !in c.avoid && c == Search(g, {source}, distrusts, maxDepth - 1);
    hide *;
    var i := GroupItem(g, source, distrusts, maxDepth, f, t);
    p := DiscoveryWalk(c, f, i);
  }

  lemma DiscoveryWalk(c: Search, f: nat, i: nat) returns (p: seq<nat>)
    requires Closed(c.g) && f < |c.g| && f !in c.avoid && DistinctRoots(c, [f]) && i < |FullOrder(c, [f])|
    ensures var x := FullOrder(c, [f])[i];
            && WalkBetween(c.g, c.avoid, f, x.node, p) && Dist(c.g, c.avoid, f, x.node, c.bound) == Some(|p| - 1)
            && x.score == PathScore(c.g, c.distrusts, p)
  {
    var order := FullOrder(c, [f]);
    FullOrderIs(c, [f]);
    hide Order, FullOrder, Closed, PathScore, WalkBetween, Dist, DistinctRoots;
    p := ScoreOfShortestWalk(c, f, |c.g|, i);
    assert Discovered(order, order[i].node, order[i].hops);
    RootDistance(c, f, order[i].node, order[i].hops);
  }

  /** The first out-neighbour of `f`, other than the source, that points to `t`. */
  ghost predicate FirstVia(g: Rows, source: nat, f: nat, t: nat, m: nat)
    requires Closed(g) && f < |g|
  {
    && m < |g[f]| && Via(g, source, g[f][m], t)
    && forall k :: 0 <= k < m ==> !Via(g, source, g[f][k], t)
  }

  ghost predicate Via(g: Rows, source: nat, x: nat, t: nat) {
    x != source && x < |g| && t in g[x]
  }

  lemma {:induction false} FirstViaExists(g: Rows, source: nat, f: nat, t: nat, k: nat) returns (m: nat)
    requires Closed(g) && f < |g| && k < |g[f]| && Via(g, source, g[f][k], t)
    ensures FirstVia(g, source, f, t, m)
    decreases k
  {
    if j :| 0 <= j < k && Via(g, source, g[f][j], t) {
      m := FirstViaExists(g, source, f, t, j);
    } else {
      m := k;
    }
  }

  /** Scanning the row of `f`, an earlier entry is discovered before a later one. */
  lemma EarlierFirst(c: Search, f: nat, m: nat, y: nat, order: seq<Visit>, j: nat)
    requires Closed(c.g) && f < |c.g| && f !in c.avoid && c.bound >= 1
    requires order == FullOrder(c, [f]) && j < |order| && order[j].node == y && y != f
    requires m < |c.g[f]| && c.g[f][m] !in c.avoid && y !in c.g[f][..m + 1]
    ensures exists k :: 0 <= k < j && order[k].node == c.g[f][m]
  {
    var root := Roots(c, [f])[0];
    var first := Scan(c, root, m + 1, [root]);
    ScanCovers(c, root, m + 1, [root], m);
    var k :| 0 <= k < |first| && first[k].node == c.g[f][m];
    ScanPrefix(c, root, m + 1, |c.g[f]|, [root]);
    assert Roots(c, [f]) == [root];
    assert Order(c, [f], 1) == Scan(c, root, |c.g[f]|, [root]);
    OrderPrefix(c, [f], 1, |c.g|);
    assert first <= order;
    ScanFacts(c, root, m + 1, [root]);
    assert first[0] == root;
    if 1 <= j < |first| {
      ScanFrom(c, root, m + 1, [root], j);
      assert false;
    }
  }

  lemma {:induction false} ScanPrefix(c: Search, parent: Visit, k: nat, n: nat, order: seq<Visit>)
    requires Closed(c.g) && parent.node < |c.g| && k <= n <= |c.g[parent.node]|
    ensures Scan(c, parent, k, order) <= Scan(c, parent, n, order)
    decreases n
  {
    if k < n { ScanPrefix(c, parent, k, n - 1, order); }
  }

  lemma {:induction false} OrderPrefix(c: Search, roots: seq<nat>, k: nat, n: nat)
    requires Closed(c.g) && Below(roots, |c.g|) && k <= n
    ensures Order(c, roots, k) <= Order(c, roots, n)
    decreases n
  {
    if k < n {
      OrderPrefix(c, roots, k, n - 1);
      OrderExtends(c, roots, n - 1);
    }
  }

  // ----- the score of a group, case by case -----

  lemma OneHopScore(g: Rows, distrusts: set<nat>, f: nat, t: nat)
    requires f < |g| && t < |g|
    ensures PathScore(g, distrusts, [f]) == Reliability(g[f], distrusts)
    ensures PathScore(g, distrusts, [f, t]) == Reliability(g[f], distrusts) * DECAY * Reliability(g[t], distrusts)
  {
    assert [f, t][..1] == [f];
  }

  lemma TwoHopScore(g: Rows, distrusts: set<nat>, f: nat, x: nat, t: nat)
    requires f < |g| && x < |g| && t < |g|
    ensures PathScore(g, distrusts, [f, x, t])
              == Reliability(g[f], distrusts) * DECAY * Reliability(g[x], distrusts) * DECAY
                 * Reliability(g[t], distrusts)
  {
    var p := [f, x, t];
    assert p[..2] == [f, x];
    OneHopScore(g, distrusts, f, x);
    assert PathScore(g, distrusts, p) == PathScore(g, distrusts, p[..2]) * DECAY * Reliability(g[t], distrusts);
  }

  lemma GroupItem(g: Rows, source: nat, distrusts: set<nat>, maxDepth: nat, f: nat, t: nat) returns (i: nat)
    requires Closed(g) && source < |g| && maxDepth >= 1 && FirstHop(g, source, f)
    requires f in GroupsFor(g, source, distrusts, maxDepth, t)
    ensures var c := GroupSearch(g, source, distrusts, maxDepth);
            var order := FullOrder(c, [f]);
            && Level(c, order, |g|) && order != [] && order[0] == Visit(f, 0, Reliability(g[f], distrusts))
            && i < |order| && order[i].node == t && order[i].score == GroupsFor(g, source, distrusts, maxDepth, t)[f]
  {
    var c := GroupSearch(g, source, distrusts, maxDepth);
    var order := FullOrder(c, [f]);
    OrderLevel(c, [f], |g|);
    RootsStay(c, [f], |g|);
    assert order[0] == Roots(c, [f])[0];
    i :| 0 <= i < |order| && order[i].node == t;
    ScoreAt(order, i);
  }

  lemma FullOrderIs(c: Search, roots: seq<nat>)
    requires Closed(c.g) && DistinctRoots(c, roots)
    ensures FullOrder(c, roots) == Order(c, roots, |c.g|)
  {}

  lemma NearScore(g: Rows, source: nat, distrusts: set<nat>, f: nat, t: nat)
    requires Closed(g) && source < |g| && FirstHop(g, source, f) && (t == f || t in g[f])
    requires f in GroupsFor(g, source, distrusts, 3, t)
    ensures GroupsFor(g, source, distrusts, 3, t)[f] == PathScore(g, distrusts, if t == f then [f] else [f, t])
  {
    hide Order, FullOrder, GroupsFor, PathScore, Reliability, Closed, DECAY;
    var c := GroupSearch(g, source, distrusts, 3);
    var order := FullOrder(c, [f]);
    assert order == Order(c, [f], |g|) by { FullOrderIs(c, [f]); }
    var i := GroupItem(g, source, distrusts, 3, f, t);
    OneHopScore(g, distrusts, f, t);
    if t == f {
      assert i == 0;
    } else {
      var j := Finder(c, [f], |g|, i);
      assert order[i] == Found(c, order[0], t);
    }
  }

  /** Two hops from the first hop, the finder is the first suitable entry of the first hop's row. */
  lemma FarFinder(g: Rows, source: nat, distrusts: set<nat>, f: nat, t: nat) returns (m: nat)
    requires Closed(g) && source < |g| && FirstHop(g, source, f) && t != f && t !in g[f]
    requires f in GroupsFor(g, source, distrusts, 3, t)
    ensures FirstVia(g, source, f, t, m) && t < |g| && t != source
    ensures GroupsFor(g, source, distrusts, 3, t)[f] == PathScore(g, distrusts, [f, g[f][m], t])
  {
    hide Order, FullOrder, GroupsFor, PathScore, Reliability, Closed, DECAY;
    var c := GroupSearch(g, source, distrusts, 3);
    var order := FullOrder(c, [f]);
    assert order == Order(c, [f], |g|) by { FullOrderIs(c, [f]); }
    var i := GroupItem(g, source, distrusts, 3, f, t);
    var j := Finder(c, [f], |g|, i);
    assert j >= 1;
    var j' := Finder(c, [f], |g|, j);
    if j' >= 1 {
      var j'' := Finder(c, [f], |g|, j');
      assert false;
    }
    var y := order[j].node;
    var k :| 0 <= k < |g[f]| && g[f][k] == y;
    m := FirstViaExists(g, source, f, t, k);
    if g[f][m] != y {
      assert y !in g[f][..m + 1] by {
        assert forall q :: 0 <= q < |g[f][..m + 1]| ==> g[f][..m + 1][q] == g[f][q] != y;
      }
      EarlierFirst(c, f, m, y, order, j);
      assert false;
    }
    TwoHopScore(g, distrusts, f, y, t);
    assert order[j] == Found(c, order[0], y) && order[i] == Found(c, order[j], t);
  }

  // ----- comparing walks -----

  lemma Scale(a: real, b: real, x: real, y: real)
    requires a > 0.0 && b > 0.0
    ensures a * DECAY * x * DECAY * b <= a * DECAY * y * DECAY * b <==> x <= y
  {
    var k := a * DECAY * DECAY * b;
    MulPositive(a * DECAY * DECAY, b);
    assert a * DECAY * x * DECAY * b == k * x;
    assert a * DECAY * y * DECAY * b == k * y;
  }

  lemma MoreReliable(a: seq<nat>, b: seq<nat>, distrusts: set<nat>)
    ensures Reliability(b, distrusts) <= Reliability(a, distrusts) <==>
              DistrustedIn(a, distrusts) <= DistrustedIn(b, distrusts)
  {
    var i, j := DistrustedIn(a, distrusts), DistrustedIn(b, distrusts);
    if i <= j { PowAntitone(1.0 - DISTRUST_PENALTY, i, j); } else { PowStrict(1.0 - DISTRUST_PENALTY, j, i); }
  }

  /** Longer walks to a node already one hop away are worse. */
  lemma DetourWorse(g: Rows, distrusts: set<nat>, p: seq<nat>)
    requires 1 <= |p| <= 3 && forall i :: 0 <= i < |p| ==> p[i] < |g|
    ensures PathScore(g, distrusts, p) <= PathScore(g, distrusts, [p[0]])
    ensures |p| >= 2 ==> PathScore(g, distrusts, p) <= PathScore(g, distrusts, [p[0], p[|p| - 1]])
  {
    hide PathScore, Reliability;
    var t := p[|p| - 1];
    OneHopScore(g, distrusts, p[0], t);
    ReliabilityAntitone(g[p[0]], {}, distrusts);
    ReliabilityAntitone(g[t], {}, distrusts);
    var a, b := Reliability(g[p[0]], distrusts), Reliability(g[t], distrusts);
    OneHopArithmetic(a, b, PathScore(g, distrusts, [p[0], t]));
    if |p| == 1 {
      assert p == [p[0]];
    } else if |p| == 2 {
      assert p == [p[0], t];
    } else {
      assert p == [p[0], p[1], t];
      ReliabilityAntitone(g[p[1]], {}, distrusts);
      TwoHopScore(g, distrusts, p[0], p[1], t);
      assert PathScore(g, distrusts, p) == PathScore(g, distrusts, [p[0], p[1], t]);
      DetourArithmetic(a, Reliability(g[p[1]], distrusts), b, PathScore(g, distrusts, p),
                       PathScore(g, distrusts, [p[0], t]));
    }
  }

  lemma OneHopArithmetic(a: real, b: real, short: real)
    requires 0.0 < a && 0.0 < b <= 1.0 && short == a * DECAY * b
    ensures short <= a
  {
    MulMonotone(a * DECAY, a, b, 1.0);
  }

  lemma DetourArithmetic(a: real, x: real, b: real, long: real, short: real)
    requires 0.0 < a && 0.0 < x <= 1.0 && 0.0 < b
    requires long == a * DECAY * x * DECAY * b && short == a * DECAY * b
    ensures long <= short
  {
    MulMonotone(x * DECAY, 1.0, a * DECAY, a * DECAY);
    assert a * DECAY * x * DECAY == (x * DECAY) * (a * DECAY);
    MulMonotone(a * DECAY * x * DECAY, a * DECAY, b, b);
  }

  /** At the production depth a group reports its best walk exactly when the target is the first hop or one of its
      direct trusts, or when no other middleman is more reliable than the first one listed. */
  lemma KeepsBestExact(g: Rows, source: nat, distrusts: set<nat>, f: nat, t: nat)
    requires Closed(g) && source < |g| && FirstHop(g, source, f)
    requires f in GroupsFor(g, source, distrusts, 3, t)
    ensures KeepsBest(g, source, distrusts, 3, f, t) <==>
              t == f || t in g[f] || FirstMiddlemanBest(g, source, distrusts, f, t)
  {
    if t == f || t in g[f] {
      NearBest(g, source, distrusts, f, t);
    } else {
      var m := FarFinder(g, source, distrusts, f, t);
      FarExact(g, source, distrusts, f, t, m);
      hide KeepsBest, GroupsFor, PathScore, DistrustedIn;
      forall m': nat | FirstVia(g, source, f, t, m') ensures m' == m {}
    }
  }

  /** No middleman between `f` and `t` has fewer distrusted trusts than the first one listed by `f`. */
  ghost predicate FirstMiddlemanBest(g: Rows, source: nat, distrusts: set<nat>, f: nat, t: nat)
    requires Closed(g) && f < |g|
  {
    forall m: nat :: FirstVia(g, source, f, t, m) ==> NoneBetter(g, source, distrusts, f, t, m)
  }

  ghost predicate NoneBetter(g: Rows, source: nat, distrusts: set<nat>, f: nat, t: nat, m: nat)
    requires Closed(g) && f < |g| && m < |g[f]|
  {
    forall k: nat :: k < |g[f]| && Via(g, source, g[f][k], t) ==>
                       DistrustedIn(g[g[f][m]], distrusts) <= DistrustedIn(g[g[f][k]], distrusts)
  }

  lemma NearBest(g: Rows, source: nat, distrusts: set<nat>, f: nat, t: nat)
    requires Closed(g) && source < |g| && FirstHop(g, source, f) && (t == f || t in g[f])
    requires f in GroupsFor(g, source, distrusts, 3, t)
    ensures KeepsBest(g, source, distrusts, 3, f, t)
  {
    hide GroupsFor, PathScore, Closed;
    NearScore(g, source, distrusts, f, t);
    var score := GroupsFor(g, source, distrusts, 3, t)[f];
    forall p | WalkBetween(g, {source}, f, t, p) && |p| <= 3 ensures PathScore(g, distrusts, p) <= score {
      DetourWorse(g, distrusts, p);
      if t != f { assert |p| >= 2; }
    }
  }

  lemma FarExact(g: Rows, source: nat, distrusts: set<nat>, f: nat, t: nat, m: nat)
    requires Closed(g) && source < |g| && FirstHop(g, source, f) && t != f && t !in g[f]
    requires f in GroupsFor(g, source, distrusts, 3, t)
    requires FirstVia(g, source, f, t, m) && t < |g| && t != source
    requires GroupsFor(g, source, distrusts, 3, t)[f] == PathScore(g, distrusts, [f, g[f][m], t])
    ensures KeepsBest(g, source, distrusts, 3, f, t) <==> NoneBetter(g, source, distrusts, f, t, m)
  {
    assert g[f][m] < |g|;
    hide GroupsFor, PathScore, Reliability, Closed, DistrustedIn;
    var best := PathScore(g, distrusts, [f, g[f][m], t]);
    forall k: nat | k < |g[f]| && Via(g, source, g[f][k], t)
      ensures var p := [f, g[f][k], t];
              && WalkBetween(g, {source}, f, t, p)
              && (PathScore(g, distrusts, p) <= best <==>
                    DistrustedIn(g[g[f][m]], distrusts) <= DistrustedIn(g[g[f][k]], distrusts))
    {
      TwoHopWalk(g, source, f, g[f][k], t);
      TwoHopCompare(g, distrusts, f, g[f][m], g[f][k], t);
    }
    forall p | WalkBetween(g, {source}, f, t, p) && |p| <= 3
      ensures exists k :: 0 <= k < |g[f]| && Via(g, source, g[f][k], t) && p == [f, g[f][k], t]
    {
      FarWalk(g, source, f, t, p);
    }
  }

  lemma TwoHopWalk(g: Rows, source: nat, f: nat, x: nat, t: nat)
    requires Closed(g) && source < |g| && f < |g| && f != source && t < |g| && t != source
    requires x in g[f] && Via(g, source, x, t)
    ensures WalkBetween(g, {source}, f, t, [f, x, t])
  {}

  lemma TwoHopCompare(g: Rows, distrusts: set<nat>, f: nat, x: nat, y: nat, t: nat)
    requires f < |g| && x < |g| && y < |g| && t < |g|
    ensures PathScore(g, distrusts, [f, y, t]) <= PathScore(g, distrusts, [f, x, t]) <==>
              DistrustedIn(g[x], distrusts) <= DistrustedIn(g[y], distrusts)
  {
    hide PathScore, Reliability, DistrustedIn;
    TwoHopScore(g, distrusts, f, x, t);
    TwoHopScore(g, distrusts, f, y, t);
    ReliabilityAntitone(g[f], {}, distrusts);
    ReliabilityAntitone(g[t], {}, distrusts);
    MoreReliable(g[x], g[y], distrusts);
    Scale(Reliability(g[f], distrusts), Reliability(g[t], distrusts),
          Reliability(g[y], distrusts), Reliability(g[x], distrusts));
  }

  /** Every short walk to a target that is neither the first hop nor its direct trust has one middleman. */
  lemma FarWalk(g: Rows, source: nat, f: nat, t: nat, p: seq<nat>)
    requires Closed(g) && t != f && f < |g| && t !in g[f] && WalkBetween(g, {source}, f, t, p) && |p| <= 3
    ensures exists k :: 0 <= k < |g[f]| && Via(g, source, g[f][k], t) && p == [f, g[f][k], t]
  {
    assert |p| > 1;
    assert p[1] in g[p[0]];
    assert |p| == 3;
    assert p[2] in g[p[1]];
    var k :| 0 <= k < |g[f]| && g[f][k] == p[1];
    assert p == [f, g[f][k], t];
  }

  /** 0 -> 1 -> {2, 3} -> 4, where 2 also trusts 5. */
  const DIAMOND: Rows := [[1], [2, 3], [4, 5], [4], [], []]
  /** The same edges with the first hop's list reversed. */
  const DIAMOND_SWAPPED: Rows := [[1], [3, 2], [4, 5], [4], [], []]

  lemma DiamondReported(g: Rows)
    requires g == DIAMOND || g == DIAMOND_SWAPPED
    ensures Closed(g) && FirstHop(g, 0, 1) && 1 in GroupsFor(g, 0, {5}, 3, 4)
  {
    assert Closed(g) && FirstHop(g, 0, 1);
    assert IsWalk(g, {0}, [1, 2, 4]);
    assert WalkBetween(g, {0}, 1, 4, [1, 2, 4]);
    hide IsWalk, Closed, GroupsFor;
    DistMeaning(g, {0}, 1, 4, 2);
    Reported(g, 0, {5}, 3, 1, 4);
  }

  /** Viewer 0 distrusts 5. Listing the penalised middleman first loses the better walk; listing it second keeps it. */
  lemma OrderMatters()
    ensures Closed(DIAMOND) && FirstHop(DIAMOND, 0, 1) && 1 in GroupsFor(DIAMOND, 0, {5}, 3, 4)
    ensures !KeepsBest(DIAMOND, 0, {5}, 3, 1, 4)
    ensures Closed(DIAMOND_SWAPPED) && FirstHop(DIAMOND_SWAPPED, 0, 1) && 1 in GroupsFor(DIAMOND_SWAPPED, 0, {5}, 3, 4)
    ensures KeepsBest(DIAMOND_SWAPPED, 0, {5}, 3, 1, 4)
  {
    DiamondReported(DIAMOND);
    DiamondReported(DIAMOND_SWAPPED);
    DiamondCondition();
    KeepsBestExact(DIAMOND, 0, {5}, 1, 4);
    KeepsBestExact(DIAMOND_SWAPPED, 0, {5}, 1, 4);
    hide KeepsBest, GroupsFor, FirstMiddlemanBest, Closed;
  }

  lemma DiamondCondition()
    ensures Closed(DIAMOND) && Closed(DIAMOND_SWAPPED)
    ensures !FirstMiddlemanBest(DIAMOND, 0, {5}, 1, 4)
    ensures FirstMiddlemanBest(DIAMOND_SWAPPED, 0, {5}, 1, 4)
  {
    var two, three := [4, 5], [4];
    assert two[..1] == [4] && three[..0] == [] && [4][..0] == [];
    assert DistrustedIn([4], {5}) == 0;
    assert DistrustedIn(two, {5}) == 1;
    assert FirstVia(DIAMOND, 0, 1, 4, 0);
    assert DIAMOND[1][1] == 3 && Via(DIAMOND, 0, 3, 4);
    assert !NoneBetter(DIAMOND, 0, {5}, 1, 4, 0);
    forall m: nat | FirstVia(DIAMOND_SWAPPED, 0, 1, 4, m) ensures NoneBetter(DIAMOND_SWAPPED, 0, {5}, 1, 4, m) {
      assert Via(DIAMOND_SWAPPED, 0, DIAMOND_SWAPPED[1][0], 4);
      assert m == 0;
    }
  }
}
