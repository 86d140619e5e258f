/** Compressed Sparse Row graphs: the counting-sort builder, the row accessor and the transpose. */
module Csr {

  /** What breadth-first search sees of a graph: the out-neighbours of every dense node id. */
  type Rows = seq<seq<nat>>

  type Edge = (nat, nat)

  /** Every target is a node of the graph. */
  ghost predicate Closed(g: Rows) {
    forall i :: 0 <= i < |g| ==> Below(g[i], |g|)
  }

  predicate Below(row: seq<nat>, n: nat) {
    forall k :: 0 <= k < |row| ==> row[k] < n
  }

  /** How often `x` occurs in `row`. */
  function Count(row: seq<nat>, x: nat): nat {
    if row == [] then 0
    else Count(row[..|row| - 1], x) + if row[|row| - 1] == x then 1 else 0
  }

  /** Targets of the edges leaving `i`, in input order. */
  function Row(edges: seq<Edge>, i: nat): seq<nat> {
    if edges == [] then []
    else
      var last := edges[|edges| - 1];
      Row(edges[..|edges| - 1], i) + if last.0 == i then [last.1] else []
  }

  function RowsOf(n: nat, edges: seq<Edge>): Rows {
    seq(n, i requires 0 <= i < n => Row(edges, i))
  }

  predicate SourcesBelow(n: nat, edges: seq<Edge>) {
    forall k :: 0 <= k < |edges| ==> edges[k].0 < n
  }

  predicate EndpointsBelow(n: nat, edges: seq<Edge>) {
    forall k :: 0 <= k < |edges| ==> edges[k].0 < n && edges[k].1 < n
  }

  /** `offsets[i]..offsets[i + 1]` delimits node `i`'s slice of `targets`. */
  datatype CsrGraph = CsrGraph(offsets: seq<nat>, targets: seq<nat>, numNodes: nat) {

    /** The slices tile `targets` without gap or overlap. */
    ghost predicate Valid() {
      && |offsets| == numNodes + 1
      && offsets[0] == 0
      && offsets[numNodes] == |targets|
      && forall i, j :: 0 <= i <= j <= numNodes ==> offsets[i] <= offsets[j]
    }

    function Neighbors(i: nat): seq<nat>
      requires Valid() && i < numNodes
    {
      targets[offsets[i]..offsets[i + 1]]
    }

    function View(): (g: Rows)
      requires Valid()
    {
      seq(numNodes, i requires 0 <= i < numNodes => Neighbors(i))
    }

    function MemoryBytes(): nat {
      |offsets| * 4 + |targets| * 4
    }
  }

  // ----- how much of `targets` each row needs -----

  /** Exclusive prefix sum of the row lengths. */
  function Start(edges: seq<Edge>, i: nat): nat {
    if i == 0 then 0 else Start(edges, i - 1) + |Row(edges, i - 1)|
  }

  lemma RowSnoc(edges: seq<Edge>, k: nat, i: nat)
    requires k < |edges|
    ensures Row(edges[..k + 1], i) == Row(edges[..k], i) + if edges[k].0 == i then [edges[k].1] else []
  {
    assert edges[..k + 1][..k] == edges[..k];
  }

  lemma {:induction false} RowPrefixFits(edges: seq<Edge>, k: nat, i: nat)
    requires k <= |edges|
    ensures |Row(edges[..k], i)| <= |Row(edges, i)|
    decreases |edges| - k
  {
    if k == |edges| {
      assert edges[..k] == edges;
    } else {
      RowSnoc(edges, k, i);
      RowPrefixFits(edges, k + 1, i);
    }
  }

  lemma {:induction false} StartMonotone(edges: seq<Edge>, i: nat, j: nat)
    requires i <= j
    ensures Start(edges, i) <= Start(edges, j)
    ensures i < j ==> Start(edges, i) + |Row(edges, i)| <= Start(edges, j)
    decreases j
  {
    if i < j {
      StartMonotone(edges, i, j - 1);
    }
  }

  /** One more edge lengthens exactly the row of its source. */
  lemma {:induction false} StartSnoc(edges: seq<Edge>, k: nat, i: nat)
    requires k < |edges|
    ensures Start(edges[..k + 1], i) == Start(edges[..k], i) + if edges[k].0 < i then 1 else 0
  {
    if i > 0 {
      StartSnoc(edges, k, i - 1);
      RowSnoc(edges, k, i - 1);
    }
  }

  /** Together the rows hold every edge. */
  lemma {:induction false} StartTotal(n: nat, edges: seq<Edge>, k: nat)
    requires k <= |edges| && SourcesBelow(n, edges)
    ensures Start(edges[..k], n) == k
  {
    if k == 0 {
      StartEmpty(n);
      assert edges[..0] == [];
    } else {
      StartTotal(n, edges, k - 1);
      StartSnoc(edges, k - 1, n);
    }
  }

  lemma {:induction false} StartEmpty(n: nat)
    ensures Start([], n) == 0
  {
    if n > 0 { StartEmpty(n - 1); }
  }

  // ----- the builder -----

  /** Counting sort of the edge list by source. The result's rows are exactly the input's rows, in input
      order, so the sort is stable; `Valid` says they tile `targets`. */
  method FromEdges(n: nat, edges: seq<Edge>) returns (r: CsrGraph)
    requires SourcesBelow(n, edges)
    ensures r.Valid() && r.numNodes == n && |r.targets| == |edges|
    ensures r.View() == RowsOf(n, edges)
  {
    var degree := CountDegrees(n, edges);
    var offsets := PrefixSums(n, edges, degree);
    var targets := Scatter(n, edges, offsets);
    r := CsrGraph(offsets[..], targets[..], n);
    Assembled(edges, r);
  }

  /** The arrays hold the prefix sums and the placed rows. */
  ghost predicate Filled(edges: seq<Edge>, r: CsrGraph) {
    && SourcesBelow(r.numNodes, edges) && |r.offsets| == r.numNodes + 1 && |r.targets| == |edges|
    && (forall i {:trigger r.offsets[i]} :: 0 <= i <= r.numNodes ==> r.offsets[i] == Start(edges, i))
    && AllPlaced(r.numNodes, edges, |edges|, r.targets)
  }

  lemma FilledIsValid(edges: seq<Edge>, r: CsrGraph)
    requires Filled(edges, r)
    ensures r.Valid()
  {
    hide AllPlaced, SourcesBelow;
    assert edges[..|edges|] == edges;
    StartTotal(r.numNodes, edges, |edges|);
    forall i, j | 0 <= i <= j <= r.numNodes ensures r.offsets[i] <= r.offsets[j] {
      hide Start;
      StartMonotone(edges, i, j);
    }
  }

  lemma PlacedRow(edges: seq<Edge>, targets: seq<nat>, i: nat)
    requires Placed(edges, |edges|, targets, i)
    ensures Start(edges, i + 1) == Start(edges, i) + |Row(edges, i)| <= |targets|
    ensures targets[Start(edges, i)..Start(edges, i + 1)] == Row(edges, i)
  {
    hide Row;
    assert edges[..|edges|] == edges;
  }

  lemma FilledRow(edges: seq<Edge>, r: CsrGraph, i: nat)
    requires Filled(edges, r) && r.Valid() && i < r.numNodes
    ensures r.Neighbors(i) == Row(edges, i)
  {
    hide Start, Row, Placed, SourcesBelow;
    var next := i + 1;
    assert r.offsets[i] == Start(edges, i) && r.offsets[next] == Start(edges, next);
    assert Placed(edges, |edges|, r.targets, i);
    hide Filled, AllPlaced;
    PlacedRow(edges, r.targets, i);
  }

  lemma Assembled(edges: seq<Edge>, r: CsrGraph)
    requires Filled(edges, r)
    ensures r.Valid() && r.View() == RowsOf(r.numNodes, edges)
  {
    hide Filled, Row;
    FilledIsValid(edges, r);
    forall i: nat | i < r.numNodes ensures r.View()[i] == Row(edges, i) { FilledRow(edges, r, i); }
  }

  method CountDegrees(n: nat, edges: seq<Edge>) returns (degree: array<nat>)
    requires SourcesBelow(n, edges)
    ensures fresh(degree) && degree.Length == n
    ensures forall i {:trigger degree[i]} :: 0 <= i < n ==> degree[i] == |Row(edges, i)|
  {
    degree := new nat[n](_ => 0);
    for k := 0 to |edges|
      invariant forall i {:trigger degree[i]} :: 0 <= i < n ==> degree[i] == |Row(edges[..k], i)|
    {
      forall i: nat { RowSnoc(edges, k, i); }
      degree[edges[k].0] := degree[edges[k].0] + 1;
    }
    assert edges[..|edges|] == edges;
  }

  method PrefixSums(n: nat, edges: seq<Edge>, degree: array<nat>) returns (offsets: array<nat>)
    requires degree.Length == n && forall i {:trigger degree[i]} :: 0 <= i < n ==> degree[i] == |Row(edges, i)|
    ensures fresh(offsets) && offsets.Length == n + 1
    ensures forall i {:trigger offsets[i]} :: 0 <= i <= n ==> offsets[i] == Start(edges, i)
  {
    offsets := new nat[n + 1](_ => 0);
    for i := 0 to n
      invariant forall j {:trigger offsets[j]} :: 0 <= j <= i ==> offsets[j] == Start(edges, j)
    {
      offsets[i + 1] := offsets[i] + degree[i];
    }
  }

  /** Row `i` of the first `k` edges sits at the start of row `i`'s slice. */
  ghost predicate Placed(edges: seq<Edge>, k: nat, targets: seq<nat>, i: nat)
    requires k <= |edges|
  {
    && Start(edges, i) + |Row(edges[..k], i)| <= |targets|
    && targets[Start(edges, i)..Start(edges, i) + |Row(edges[..k], i)|] == Row(edges[..k], i)
  }

  /** Writing edge `k` at its source's cursor extends that row and disturbs no other. */
  lemma PlaceNext(n: nat, edges: seq<Edge>, k: nat, targets: seq<nat>, i: nat)
    requires SourcesBelow(n, edges) && k < |edges| && i < n && |targets| == |edges|
    requires Placed(edges, k, targets, i)
    ensures var pos := Start(edges, edges[k].0) + |Row(edges[..k], edges[k].0)|;
            pos < |targets| && Placed(edges, k + 1, targets[pos := edges[k].1], i)
  {
    var s := edges[k].0;
    var pos := Start(edges, s) + |Row(edges[..k], s)|;
    RowSnoc(edges, k, i);
    RowSnoc(edges, k, s);
    RowPrefixFits(edges, k + 1, i);
    RowPrefixFits(edges, k + 1, s);
    StartTotal(n, edges, |edges|);
    assert edges[..|edges|] == edges;
    StartMonotone(edges, s, n);
    StartMonotone(edges, i, n);
    if i < s {
      StartMonotone(edges, i, s);
    } else if s < i {
      StartMonotone(edges, s, i);
    }
  }

  ghost predicate AllPlaced(n: nat, edges: seq<Edge>, k: nat, targets: seq<nat>)
    requires k <= |edges|
  {
    forall i: nat :: i < n ==> Placed(edges, k, targets, i)
  }

  lemma PlaceNothing(n: nat, edges: seq<Edge>, targets: seq<nat>)
    requires SourcesBelow(n, edges) && |targets| == |edges|
    ensures AllPlaced(n, edges, 0, targets)
  {
    assert edges[..0] == [] && edges[..|edges|] == edges;
    StartTotal(n, edges, |edges|);
    forall i: nat | i < n ensures Placed(edges, 0, targets, i) {
      StartMonotone(edges, i, n);
    }
  }

  /** Where the write cursors stand after `k` edges. */
  ghost predicate Cursors(n: nat, edges: seq<Edge>, k: nat, cursor: seq<nat>)
    requires k <= |edges|
  {
    && |cursor| == n
    && forall i {:trigger cursor[i]} :: 0 <= i < n ==> cursor[i] == Start(edges, i) + |Row(edges[..k], i)|
  }

  lemma ScatterStep(n: nat, edges: seq<Edge>, k: nat, cursor: seq<nat>, targets: seq<nat>)
    requires SourcesBelow(n, edges) && k < |edges| && |targets| == |edges|
    requires Cursors(n, edges, k, cursor) && AllPlaced(n, edges, k, targets)
    ensures var (src, tgt) := edges[k];
            && cursor[src] < |targets|
            && AllPlaced(n, edges, k + 1, targets[cursor[src] := tgt])
            && Cursors(n, edges, k + 1, cursor[src := cursor[src] + 1])
  {
    var (src, tgt) := edges[k];
    PlaceNext(n, edges, k, targets, src);
    var done, after := k + 1, targets[cursor[src] := tgt];
    forall i: nat | i < n ensures Placed(edges, done, after, i) {
      PlaceNext(n, edges, k, targets, i);
    }
    forall i: nat { RowSnoc(edges, k, i); }
  }

  method Scatter(n: nat, edges: seq<Edge>, offsets: array<nat>) returns (targets: array<nat>)
    requires SourcesBelow(n, edges)
    requires offsets.Length == n + 1
    requires forall i {:trigger offsets[i]} :: 0 <= i <= n ==> offsets[i] == Start(edges, i)
    ensures fresh(targets) && targets.Length == |edges|
    ensures AllPlaced(n, edges, |edges|, targets[..])
  {
    targets := new nat[|edges|](_ => 0);
    var cursor := new nat[n](i requires 0 <= i < n reads offsets => offsets[i]);
    PlaceNothing(n, edges, targets[..]);
    assert Cursors(n, edges, 0, cursor[..]) by { assert edges[..0] == []; }
    hide AllPlaced, Cursors, Start;
    for k := 0 to |edges|
      invariant cursor != targets
      invariant Cursors(n, edges, k, cursor[..])
      invariant AllPlaced(n, edges, k, targets[..])
    {
      var (src, tgt) := edges[k];
      ScatterStep(n, edges, k, cursor[..], targets[..]);
      ghost var before, cursorBefore := targets[..], cursor[..];
      targets[cursor[src]] := tgt;
      cursor[src] := cursor[src] + 1;
      assert targets[..] == before[cursorBefore[src] := tgt];
      assert cursor[..] == cursorBefore[src := cursorBefore[src] + 1];
    }
  }

  /** A valid graph is determined by its rows. */
  lemma ViewDetermines(a: CsrGraph, b: CsrGraph)
    requires a.Valid() && b.Valid() && a.View() == b.View()
    ensures a == b
  {
    assert a.numNodes == |a.View()| == |b.View()| == b.numNodes;
    var n := a.numNodes;
    forall i | 0 <= i <= n ensures a.offsets[i] == b.offsets[i] {
      SameOffsets(a, b, i);
    }
    assert a.offsets == b.offsets;
    forall k | 0 <= k < |a.targets| ensures a.targets[k] == b.targets[k] {
      var i := Owner(a, k, n);
      assert a.View()[i] == a.Neighbors(i) && b.View()[i] == b.Neighbors(i);
      assert a.Neighbors(i)[k - a.offsets[i]] == b.Neighbors(i)[k - a.offsets[i]];
    }
    assert a.targets == b.targets;
  }

  lemma {:induction false} SameOffsets(a: CsrGraph, b: CsrGraph, i: nat)
    requires a.Valid() && b.Valid() && a.View() == b.View() && a.numNodes == b.numNodes && i <= a.numNodes
    ensures a.offsets[i] == b.offsets[i]
  {
    if i > 0 {
      SameOffsets(a, b, i - 1);
      assert a.View()[i - 1] == a.Neighbors(i - 1) && b.View()[i - 1] == b.Neighbors(i - 1);
    }
  }

  /** The row a position of `targets` belongs to. */
  lemma {:induction false} Owner(a: CsrGraph, k: nat, hi: nat) returns (i: nat)
    requires a.Valid() && hi <= a.numNodes && k < a.offsets[hi]
    ensures i < a.numNodes && a.offsets[i] <= k < a.offsets[i + 1]
  {
    if a.offsets[hi - 1] <= k { i := hi - 1; } else { i := Owner(a, k, hi - 1); }
  }
}
