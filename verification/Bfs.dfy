/** The visiting order of a queue-driven breadth-first search, defined one pop at a time, and its meaning. */
module Bfs {
  import opened Csr
  import opened Walks
  import opened Options
  import opened Reals

  /** A discovered node, its distance from the roots, and the score of the path that found it. */
  datatype Visit = Visit(node: nat, hops: nat, score: real)

  /** Nodes in `avoid` are never entered; nodes `bound` hops away are not expanded. */
  datatype Search = Search(g: Rows, avoid: set<nat>, distrusts: set<nat>, bound: nat)

  // ----- distrust reliability -----

  function DistrustedIn(row: seq<nat>, distrusts: set<nat>): nat {
    if row == [] then 0
    else DistrustedIn(row[..|row| - 1], distrusts) + if row[|row| - 1] in distrusts then 1 else 0
  }

  /** One multiplicative penalty per out-edge into the viewer's distrust set. */
  function Reliability(row: seq<nat>, distrusts: set<nat>): real {
    Pow(1.0 - DISTRUST_PENALTY, DistrustedIn(row, distrusts))
  }

  /** The out-edges that lead to a distrusted user. */
  ghost function DistrustedAt(row: seq<nat>, distrusts: set<nat>): set<nat> {
    set k: nat | k < |row| && row[k] in distrusts
  }

  /** Parallel edges count separately. */
  lemma {:induction false} DistrustedCount(row: seq<nat>, distrusts: set<nat>)
    ensures DistrustedIn(row, distrusts) == |DistrustedAt(row, distrusts)|
  {
    if row == [] {
      assert DistrustedAt(row, distrusts) == {};
    } else {
      var n := |row| - 1;
      var init := row[..n];
      DistrustedCount(init, distrusts);
      if row[n] in distrusts {
        assert DistrustedAt(row, distrusts) == DistrustedAt(init, distrusts) + {n};
      } else {
        assert DistrustedAt(row, distrusts) == DistrustedAt(init, distrusts);
      }
    }
  }

  // ----- the visiting order -----

  ghost predicate Seen(order: seq<Visit>, v: nat) {
    exists i :: 0 <= i < |order| && order[i].node == v
  }

  ghost function Found(c: Search, parent: Visit, v: nat): Visit
    requires v < |c.g|
  {
    Visit(v, parent.hops + 1, parent.score * DECAY * Reliability(c.g[v], c.distrusts))
  }

  ghost function VisitOne(c: Search, parent: Visit, v: nat, order: seq<Visit>): seq<Visit>
    requires v < |c.g|
  {
    if v in c.avoid || Seen(order, v) then order else order + [Found(c, parent, v)]
  }

  /** The order after looking at the first `k` out-neighbours of `parent`. */
  ghost function Scan(c: Search, parent: Visit, k: nat, order: seq<Visit>): seq<Visit>
    requires Closed(c.g) && parent.node < |c.g| && k <= |c.g[parent.node]|
  {
    if k == 0 then order
    else VisitOne(c, parent, c.g[parent.node][k - 1], Scan(c, parent, k - 1, order))
  }

  ghost function Expand(c: Search, parent: Visit, order: seq<Visit>): seq<Visit>
    requires Closed(c.g) && parent.node < |c.g|
  {
    if parent.hops >= c.bound then order else Scan(c, parent, |c.g[parent.node]|, order)
  }

  ghost predicate InRange(c: Search, order: seq<Visit>) {
    forall i :: 0 <= i < |order| ==> order[i].node < |c.g|
  }

  ghost function Roots(c: Search, roots: seq<nat>): seq<Visit>
    requires Below(roots, |c.g|)
  {
    seq(|roots|, i requires 0 <= i < |roots| => Visit(roots[i], 0, Reliability(c.g[roots[i]], c.distrusts)))
  }

  /** Everything discovered when the first `n` discovered nodes have been expanded. */
  ghost function Order(c: Search, roots: seq<nat>, n: nat): (order: seq<Visit>)
    requires Closed(c.g) && Below(roots, |c.g|)
    ensures InRange(c, order)
  {
    if n == 0 then Roots(c, roots)
    else
      var before := Order(c, roots, n - 1);
      if n - 1 < |before| then
        ExpandInRange(c, before[n - 1], before);
        Expand(c, before[n - 1], before)
      else before
  }

  lemma ExpandInRange(c: Search, parent: Visit, order: seq<Visit>)
    requires Closed(c.g) && parent.node < |c.g| && InRange(c, order)
    ensures InRange(c, Expand(c, parent, order))
  {
    if parent.hops < c.bound { ScanFacts(c, parent, |c.g[parent.node]|, order); }
  }

  /** What a scan appends. */
  lemma {:induction false} ScanFacts(c: Search, parent: Visit, k: nat, order: seq<Visit>)
    requires Closed(c.g) && parent.node < |c.g| && k <= |c.g[parent.node]|
    ensures order <= Scan(c, parent, k, order)
    ensures forall i :: |order| <= i < |Scan(c, parent, k, order)| ==>
              var x := Scan(c, parent, k, order)[i];
              x.node < |c.g| && x.node !in c.avoid && x.node in c.g[parent.node] && x == Found(c, parent, x.node)
  {
    if k > 0 { ScanFacts(c, parent, k - 1, order); }
  }

  lemma {:induction false} ScanCovers(c: Search, parent: Visit, k: nat, order: seq<Visit>, m: nat)
    requires Closed(c.g) && parent.node < |c.g| && m < k <= |c.g[parent.node]|
    ensures var v := c.g[parent.node][m]; v in c.avoid || Seen(Scan(c, parent, k, order), v)
  {
    var before := Scan(c, parent, k - 1, order);
    var v := c.g[parent.node][k - 1];
    var after := VisitOne(c, parent, v, before);
    if m < k - 1 {
      ScanCovers(c, parent, k - 1, order, m);
      SeenPrefix(before, after, c.g[parent.node][m]);
    } else if v !in c.avoid && !Seen(before, v) {
      assert after[|before|].node == v;
    }
  }

  lemma SeenPrefix(a: seq<Visit>, b: seq<Visit>, v: nat)
    requires a <= b
    ensures Seen(a, v) ==> Seen(b, v)
  {
    if Seen(a, v) {
      var i :| 0 <= i < |a| && a[i].node == v;
      assert b[i].node == v;
    }
  }

  ghost predicate Distinct(order: seq<Visit>) {
    forall i, j :: 0 <= i < j < |order| ==> order[i].node != order[j].node
  }

  lemma {:induction false} ScanDistinct(c: Search, parent: Visit, k: nat, order: seq<Visit>)
    requires Closed(c.g) && parent.node < |c.g| && k <= |c.g[parent.node]| && Distinct(order)
    ensures Distinct(Scan(c, parent, k, order))
  {
    if k > 0 { ScanDistinct(c, parent, k - 1, order); }
  }

  // ----- breadth first: hops never decrease along the order -----

  ghost predicate Sorted(order: seq<Visit>) {
    forall i, j :: 0 <= i <= j < |order| ==> order[i].hops <= order[j].hops
  }

  ghost predicate Level(c: Search, order: seq<Visit>, n: nat) {
    && Sorted(order) && Distinct(order)
    && (forall i :: 0 <= i < |order| ==> order[i].hops <= c.bound && order[i].node !in c.avoid)
    && (n < |order| ==> forall i :: 0 <= i < |order| ==> order[i].hops <= order[n].hops + 1)
  }

  ghost predicate DistinctRoots(c: Search, roots: seq<nat>) {
    && Below(roots, |c.g|)
    && (forall i, j :: 0 <= i < j < |roots| ==> roots[i] != roots[j])
    && (forall i :: 0 <= i < |roots| ==> roots[i] !in c.avoid)
  }

  lemma {:induction false} OrderLevel(c: Search, roots: seq<nat>, n: nat)
    requires Closed(c.g) && DistinctRoots(c, roots)
    ensures Level(c, Order(c, roots, n), n)
  {
    if n > 0 {
      OrderLevel(c, roots, n - 1);
      var before := Order(c, roots, n - 1);
      if n - 1 < |before| { ExpandLevel(c, before, n - 1); }
    }
  }

  lemma ExpandLevel(c: Search, order: seq<Visit>, n: nat)
    requires Closed(c.g) && InRange(c, order) && Level(c, order, n) && n < |order|
    ensures Level(c, Expand(c, order[n], order), n + 1)
  {
    var parent := order[n];
    if parent.hops < c.bound {
      ScanFacts(c, parent, |c.g[parent.node]|, order);
      ScanDistinct(c, parent, |c.g[parent.node]|, order);
    }
  }

  // ----- nothing is missed, nothing is invented -----

  ghost predicate SeenWithin(order: seq<Visit>, v: nat, hops: nat) {
    exists i :: 0 <= i < |order| && order[i].node == v && order[i].hops <= hops
  }

  /** The neighbours of the expanded node `i` are all found, at most one hop further. */
  ghost predicate Covered(c: Search, order: seq<Visit>, i: nat)
    requires i < |order| && order[i].node < |c.g|
  {
    order[i].hops < c.bound ==>
      forall v :: v in c.g[order[i].node] && v !in c.avoid ==> SeenWithin(order, v, order[i].hops + 1)
  }

  lemma CoveredPrefix(c: Search, a: seq<Visit>, b: seq<Visit>, i: nat)
    requires a <= b && i < |a| && InRange(c, b) && Covered(c, a, i)
    ensures Covered(c, b, i)
  {
    if b[i].hops < c.bound {
      forall v | v in c.g[b[i].node] && v !in c.avoid ensures SeenWithin(b, v, b[i].hops + 1) {
        assert SeenWithin(a, v, a[i].hops + 1);
        var j :| 0 <= j < |a| && a[j].node == v && a[j].hops <= a[i].hops + 1;
        assert b[j] == a[j];
      }
    }
  }

  lemma OrderExtends(c: Search, roots: seq<nat>, n: nat)
    requires Closed(c.g) && Below(roots, |c.g|)
    ensures Order(c, roots, n) <= Order(c, roots, n + 1)
  {
    var before := Order(c, roots, n);
    if n < |before| && before[n].hops < c.bound {
      ScanFacts(c, before[n], |c.g[before[n].node]|, before);
    }
  }

  lemma {:induction false} OrderCovered(c: Search, roots: seq<nat>, n: nat, i: nat)
    requires Closed(c.g) && DistinctRoots(c, roots) && i < n && i < |Order(c, roots, n)|
    ensures Covered(c, Order(c, roots, n), i)
  {
    var before, after := Order(c, roots, n - 1), Order(c, roots, n);
    OrderExtends(c, roots, n - 1);
    if i < n - 1 && i < |before| {
      OrderCovered(c, roots, n - 1, i);
      CoveredPrefix(c, before, after, i);
    } else if i == n - 1 && i < |before| {
      OrderLevel(c, roots, n - 1);
      ExpandCovers(c, before, i);
    }
  }

  lemma ExpandCovers(c: Search, order: seq<Visit>, n: nat)
    requires Closed(c.g) && InRange(c, order) && Level(c, order, n) && n < |order|
    ensures order <= Expand(c, order[n], order)
    ensures InRange(c, Expand(c, order[n], order))
    ensures Covered(c, Expand(c, order[n], order), n)
  {
    var parent := order[n];
    var after := Expand(c, parent, order);
    ExpandInRange(c, parent, order);
    if parent.hops < c.bound {
      var row := c.g[parent.node];
      ScanFacts(c, parent, |row|, order);
      forall v | v in row && v !in c.avoid ensures SeenWithin(after, v, parent.hops + 1) {
        var m :| 0 <= m < |row| && row[m] == v;
        ScanCovers(c, parent, |row|, order, m);
        var j :| 0 <= j < |after| && after[j].node == v;
        assert j < |order| ==> after[j] == order[j];
      }
    }
  }

  /** Some root is exactly `k` edges away from `v`. */
  ghost predicate FromRoots(c: Search, roots: seq<nat>, v: nat, k: nat) {
    exists i :: 0 <= i < |roots| && Hops(c.g, c.avoid, roots[i], v, k)
  }

  lemma {:induction false} OrderSound(c: Search, roots: seq<nat>, n: nat, i: nat)
    requires Closed(c.g) && DistinctRoots(c, roots) && i < |Order(c, roots, n)|
    ensures var x := Order(c, roots, n)[i]; FromRoots(c, roots, x.node, x.hops)
  {
    if n == 0 {
      HopsZero(c.g, c.avoid, roots[i], roots[i]);
    } else {
      var before, after := Order(c, roots, n - 1), Order(c, roots, n);
      OrderExtends(c, roots, n - 1);
      if i < |before| {
        OrderSound(c, roots, n - 1, i);
      } else {
        var parent := before[n - 1];
        OrderSound(c, roots, n - 1, n - 1);
        ScanFacts(c, parent, |c.g[parent.node]|, before);
        var r :| 0 <= r < |roots| && Hops(c.g, c.avoid, roots[r], parent.node, parent.hops);
        HopsSnoc(c.g, c.avoid, roots[r], parent.node, after[i].node, parent.hops);
      }
    }
  }

  lemma {:induction false} RootsStay(c: Search, roots: seq<nat>, n: nat)
    requires Closed(c.g) && Below(roots, |c.g|)
    ensures Roots(c, roots) <= Order(c, roots, n)
  {
    if n > 0 {
      RootsStay(c, roots, n - 1);
      OrderExtends(c, roots, n - 1);
    }
  }

  /** When every discovered node has been expanded, every short walk has been followed. */
  lemma {:induction false} OrderComplete(c: Search, roots: seq<nat>, n: nat, v: nat, k: nat)
    requires Closed(c.g) && DistinctRoots(c, roots) && |Order(c, roots, n)| <= n
    requires k <= c.bound && FromRoots(c, roots, v, k)
    ensures SeenWithin(Order(c, roots, n), v, k)
    decreases k
  {
    var order := Order(c, roots, n);
    var r :| 0 <= r < |roots| && Hops(c.g, c.avoid, roots[r], v, k);
    if k == 0 {
      HopsZero(c.g, c.avoid, roots[r], v);
      RootsStay(c, roots, n);
      assert order[r] == Roots(c, roots)[r];
    } else {
      var w := HopsUnsnoc(c.g, c.avoid, roots[r], v, k - 1);
      hide Hops;
      assert FromRoots(c, roots, w, k - 1);
      OrderComplete(c, roots, n, w, k - 1);
      hide FromRoots;
      var i :| 0 <= i < |order| && order[i].node == w && order[i].hops <= k - 1;
      OrderCovered(c, roots, n, i);
      hide Order;
      assert SeenWithin(order, v, order[i].hops + 1);
      var j :| 0 <= j < |order| && order[j].node == v && order[j].hops <= order[i].hops + 1;
      assert order[j].hops <= k;
    }
  }

  // ----- the order is finished after at most |g| expansions -----

  lemma {:induction false} Pigeonhole(order: seq<Visit>, n: nat)
    requires Distinct(order) && forall i :: 0 <= i < |order| ==> order[i].node < n
    ensures |order| <= n
  {
    if n > 0 {
      if Seen(order, n - 1) {
        var k :| 0 <= k < |order| && order[k].node == n - 1;
        var rest := order[..k] + order[k + 1..];
        assert forall i :: 0 <= i < |rest| ==> rest[i] == order[if i < k then i else i + 1];
        Pigeonhole(rest, n - 1);
      } else {
        forall i | 0 <= i < |order| ensures order[i].node < n - 1 { assert order[i].node != n - 1; }
        Pigeonhole(order, n - 1);
      }
    }
  }

  ghost function FullOrder(c: Search, roots: seq<nat>): (order: seq<Visit>)
    requires Closed(c.g) && DistinctRoots(c, roots)
    ensures InRange(c, order)
  {
    Order(c, roots, |c.g|)
  }

  lemma OrderShort(c: Search, roots: seq<nat>, n: nat)
    requires Closed(c.g) && DistinctRoots(c, roots)
    ensures |Order(c, roots, n)| <= |c.g|
  {
    OrderLevel(c, roots, n);
    Pigeonhole(Order(c, roots, n), |c.g|);
  }

  /** Once everything discovered has been expanded, the order no longer changes. */
  lemma {:induction false} OrderStable(c: Search, roots: seq<nat>, n: nat, m: nat)
    requires Closed(c.g) && Below(roots, |c.g|) && |Order(c, roots, n)| <= n <= m
    ensures Order(c, roots, m) == Order(c, roots, n)
    decreases m
  {
    if n < m { OrderStable(c, roots, n, m - 1); }
  }

  lemma OrderFinished(c: Search, roots: seq<nat>, n: nat)
    requires Closed(c.g) && DistinctRoots(c, roots) && |Order(c, roots, n)| <= n
    ensures Order(c, roots, n) == FullOrder(c, roots)
  {
    OrderShort(c, roots, n);
    OrderShort(c, roots, |c.g|);
    if n <= |c.g| {
      OrderStable(c, roots, n, |c.g|);
    } else {
      OrderStable(c, roots, |c.g|, n);
    }
  }

  ghost predicate Discovered(order: seq<Visit>, v: nat, k: nat) {
    exists i :: 0 <= i < |order| && order[i].node == v && order[i].hops == k
  }

  /** Breadth-first search finds exactly the nodes within `bound` of the roots, each once and at its distance. */
  lemma SearchMeaning(c: Search, roots: seq<nat>, v: nat, k: nat)
    requires Closed(c.g) && DistinctRoots(c, roots)
    ensures Distinct(FullOrder(c, roots))
    ensures Discovered(FullOrder(c, roots), v, k) <==>
              && k <= c.bound && FromRoots(c, roots, v, k)
              && forall m: nat :: m < k ==> !FromRoots(c, roots, v, m)
  {
    var order := FullOrder(c, roots);
    OrderLevel(c, roots, |c.g|);
    OrderShort(c, roots, |c.g|);
    if Discovered(order, v, k) {
      var i :| 0 <= i < |order| && order[i].node == v && order[i].hops == k;
      OrderSound(c, roots, |c.g|, i);
      forall m: nat | m < k ensures !FromRoots(c, roots, v, m) {
        if FromRoots(c, roots, v, m) {
          OrderComplete(c, roots, |c.g|, v, m);
        }
      }
    }
    if k <= c.bound && FromRoots(c, roots, v, k) {
      OrderComplete(c, roots, |c.g|, v, k);
      var i :| 0 <= i < |order| && order[i].node == v && order[i].hops <= k;
      OrderSound(c, roots, |c.g|, i);
    }
  }

  /** From a single root, the hops are the distance. */
  lemma RootDistance(c: Search, root: nat, v: nat, k: nat)
    requires Closed(c.g) && root < |c.g| && root !in c.avoid
    ensures Discovered(FullOrder(c, [root]), v, k) <==> Dist(c.g, c.avoid, root, v, c.bound) == Some(k)
  {
    SearchMeaning(c, [root], v, k);
    DistMeaning(c.g, c.avoid, root, v, c.bound);
    forall m: nat ensures FromRoots(c, [root], v, m) <==> Hops(c.g, c.avoid, root, v, m) {
      if Hops(c.g, c.avoid, root, v, m) { assert [root][0] == root; }
    }
  }
}
