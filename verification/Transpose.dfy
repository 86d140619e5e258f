/** The transpose of a graph, and what repeated transposition does to adjacency order. */
module Transpose {
  import opened Csr

  /** The edges of row `i` from position `k` down to 0, flipped. */
  function FlippedRow(row: seq<nat>, i: nat, k: nat): seq<Edge>
    requires k <= |row|
  {
    if k == 0 then [] else FlippedRow(row, i, k - 1) + [(row[k - 1], i)]
  }

  /** The flipped edges of rows `0..i`, row after row. */
  function Flipped(g: Rows, i: nat): seq<Edge>
    requires i <= |g|
  {
    if i == 0 then [] else Flipped(g, i - 1) + FlippedRow(g[i - 1], i - 1, |g[i - 1]|)
  }

  function Transposed(g: Rows): Rows {
    RowsOf(|g|, Flipped(g, |g|))
  }

  ghost predicate Ascending(row: seq<nat>) {
    forall i, j :: 0 <= i <= j < |row| ==> row[i] <= row[j]
  }

  // ----- rows of a concatenated edge list -----

  lemma {:induction false} RowConcat(a: seq<Edge>, b: seq<Edge>, t: nat)
    ensures Row(a + b, t) == Row(a, t) + Row(b, t)
  {
    if b == [] {
      assert a + b == a;
    } else {
      RowConcat(a, b[..|b| - 1], t);
      assert (a + b)[..|a + b| - 1] == a + b[..|b| - 1];
    }
  }

  function Repeat(x: nat, m: nat): seq<nat> {
    seq(m, _ => x)
  }

  lemma {:induction false} FlippedRowIs(row: seq<nat>, i: nat, k: nat, t: nat)
    requires k <= |row|
    ensures Row(FlippedRow(row, i, k), t) == Repeat(i, Count(row[..k], t))
  {
    if k > 0 {
      FlippedRowIs(row, i, k - 1, t);
      var prefix := FlippedRow(row, i, k - 1);
      assert (prefix + [(row[k - 1], i)])[..|prefix|] == prefix;
      assert row[..k][..k - 1] == row[..k - 1];
    }
  }

  lemma FlippedIs(g: Rows, i: nat, t: nat)
    requires 0 < i <= |g|
    ensures Row(Flipped(g, i), t) == Row(Flipped(g, i - 1), t) + Repeat(i - 1, Count(g[i - 1], t))
  {
    var row := g[i - 1];
    FlippedRowIs(row, i - 1, |row|, t);
    assert row[..|row|] == row;
    RowConcat(Flipped(g, i - 1), FlippedRow(row, i - 1, |row|), t);
  }

  // ----- counting -----

  lemma {:induction false} CountConcat(a: seq<nat>, b: seq<nat>, x: nat)
    ensures Count(a + b, x) == Count(a, x) + Count(b, x)
  {
    if b == [] {
      assert a + b == a;
    } else {
      CountConcat(a, b[..|b| - 1], x);
      assert (a + b)[..|a + b| - 1] == a + b[..|b| - 1];
    }
  }

  lemma {:induction false} CountRepeat(y: nat, m: nat, x: nat)
    ensures Count(Repeat(y, m), x) == if x == y then m else 0
  {
    if m > 0 {
      CountRepeat(y, m - 1, x);
      assert Repeat(y, m)[..m - 1] == Repeat(y, m - 1);
    }
  }

  lemma {:induction false} CountPositive(row: seq<nat>, x: nat)
    ensures x in row <==> Count(row, x) > 0
  {
    if row != [] {
      CountPositive(row[..|row| - 1], x);
      assert row == row[..|row| - 1] + [row[|row| - 1]];
    }
  }

  // ----- what the transpose is -----

  lemma {:induction false} FlippedAscending(g: Rows, i: nat, t: nat)
    requires i <= |g|
    ensures Ascending(Row(Flipped(g, i), t))
    ensures Below(Row(Flipped(g, i), t), i)
  {
    if i > 0 {
      FlippedAscending(g, i - 1, t);
      FlippedIs(g, i, t);
    }
  }

  lemma {:induction false} FlippedCount(g: Rows, i: nat, t: nat, s: nat)
    requires s < i <= |g|
    ensures Count(Row(Flipped(g, i), t), s) == Count(g[s], t)
  {
    FlippedIs(g, i, t);
    CountConcat(Row(Flipped(g, i - 1), t), Repeat(i - 1, Count(g[i - 1], t)), s);
    CountRepeat(i - 1, Count(g[i - 1], t), s);
    if s == i - 1 {
      FlippedAscending(g, i - 1, t);
      CountPositive(Row(Flipped(g, i - 1), t), s);
    } else {
      FlippedCount(g, i - 1, t, s);
    }
  }

  /** Flipping keeps the multiplicity of every edge, and transposed rows are ascending. */
  lemma TransposeFlips(g: Rows, s: nat, t: nat)
    requires s < |g| && t < |g|
    ensures Count(Transposed(g)[t], s) == Count(g[s], t)
    ensures s in Transposed(g)[t] <==> t in g[s]
    ensures Ascending(Transposed(g)[t])
  {
    FlippedAscending(g, |g|, t);
    FlippedCount(g, |g|, t, s);
    CountPositive(Transposed(g)[t], s);
    CountPositive(g[s], t);
  }

  lemma TransposeClosed(g: Rows)
    ensures |Transposed(g)| == |g| && Closed(Transposed(g))
  {
    forall t: nat | t < |g| ensures Below(Transposed(g)[t], |g|) {
      FlippedAscending(g, |g|, t);
    }
  }

  /** An ascending row is determined by how often each node occurs in it. */
  lemma {:induction false} AscendingUnique(a: seq<nat>, b: seq<nat>)
    requires Ascending(a) && Ascending(b)
    requires forall x: nat :: Count(a, x) == Count(b, x)
    ensures a == b
  {
    if a == [] || b == [] {
      if a != [] { CountPositive(a, a[0]); }
      if b != [] { CountPositive(b, b[0]); }
    } else {
      var x, y := a[|a| - 1], b[|b| - 1];
      CountPositive(a, x); CountPositive(b, x);
      CountPositive(a, y); CountPositive(b, y);
      assert x == y;
      var a', b' := a[..|a| - 1], b[..|b| - 1];
      forall z: nat ensures Count(a', z) == Count(b', z) {
        assert Count(a, z) == Count(b, z);
      }
      AscendingUnique(a', b');
      assert a == a' + [x] && b == b' + [x];
    }
  }

  /** Transposing twice sorts every row; a third transpose gives back the first one, row for row. */
  lemma ThriceIsOnce(g: Rows)
    requires Closed(g)
    ensures Transposed(Transposed(Transposed(g))) == Transposed(g)
  {
    var t1 := Transposed(g);
    var t2 := Transposed(t1);
    var t3 := Transposed(t2);
    TransposeClosed(g);
    TransposeClosed(t1);
    TransposeClosed(t2);
    forall i: nat | i < |g| ensures t3[i] == t1[i] {
      forall x: nat ensures Count(t3[i], x) == Count(t1[i], x) {
        CountPositive(t1[i], x);
        CountPositive(t3[i], x);
        if x < |g| {
          TransposeFlips(g, x, i);
          TransposeFlips(t1, i, x);
          TransposeFlips(t2, x, i);
        }
      }
      FlippedAscending(g, |g|, i);
      FlippedAscending(t2, |g|, i);
      AscendingUnique(t3[i], t1[i]);
    }
  }

  // ----- the code -----

  method TransposeCsr(c: CsrGraph) returns (r: CsrGraph)
    requires c.Valid() && Closed(c.View())
    ensures r.Valid() && r.numNodes == c.numNodes
    ensures r.View() == Transposed(c.View())
    ensures |r.targets| == |c.targets|
  {
    ghost var g := c.View();
    var reverseEdges: seq<Edge> := [];
    for src := 0 to c.numNodes
      invariant reverseEdges == Flipped(g, src)
      invariant |reverseEdges| == c.offsets[src]
    {
      var row := c.Neighbors(src);
      assert row == g[src];
      ghost var before := reverseEdges;
      for k := 0 to |row|
        invariant reverseEdges == before + FlippedRow(row, src, k)
        invariant |reverseEdges| == |before| + k
      {
        reverseEdges := reverseEdges + [(row[k], src)];
      }
    }
    FlippedBelow(g, |g|);
    r := FromEdges(c.numNodes, reverseEdges);
  }

  lemma {:induction false} FlippedBelow(g: Rows, i: nat)
    requires Closed(g) && i <= |g|
    ensures SourcesBelow(|g|, Flipped(g, i))
  {
    if i > 0 {
      FlippedBelow(g, i - 1);
      FlippedRowBelow(|g|, g[i - 1], i - 1, |g[i - 1]|);
    }
  }

  lemma {:induction false} FlippedRowBelow(n: nat, row: seq<nat>, i: nat, k: nat)
    requires Below(row, n) && k <= |row|
    ensures SourcesBelow(n, FlippedRow(row, i, k))
  {
    if k > 0 { FlippedRowBelow(n, row, i, k - 1); }
  }

  /** Forward graph and its transpose, as the two searches use them. */
  datatype DualCsrGraph = DualCsrGraph(forward: CsrGraph, reverse: CsrGraph, numNodes: nat) {
    ghost predicate Valid() {
      && forward.Valid() && reverse.Valid()
      && forward.numNodes == reverse.numNodes == numNodes
      && Closed(forward.View())
      && reverse.View() == Transposed(forward.View())
    }

    function MemoryBytes(): nat {
      forward.MemoryBytes() + reverse.MemoryBytes()
    }
  }

  method DualFromEdges(n: nat, edges: seq<Edge>) returns (d: DualCsrGraph)
    requires EndpointsBelow(n, edges)
    ensures d.Valid() && d.numNodes == n
    ensures d.forward.View() == RowsOf(n, edges)
    ensures |d.forward.targets| == |edges| && |d.reverse.targets| == |edges|
  {
    var forward := FromEdges(n, edges);
    RowsClosed(n, edges);
    var reverse := TransposeCsr(forward);
    d := DualCsrGraph(forward, reverse, n);
  }

  lemma RowsClosed(n: nat, edges: seq<Edge>)
    requires EndpointsBelow(n, edges)
    ensures Closed(RowsOf(n, edges))
  {
    forall i: nat | i < n ensures Below(Row(edges, i), n) {
      RowBelow(n, edges, i);
    }
  }

  lemma {:induction false} RowBelow(n: nat, edges: seq<Edge>, i: nat)
    requires EndpointsBelow(n, edges)
    ensures Below(Row(edges, i), n)
  {
    if edges != [] { RowBelow(n, edges[..|edges| - 1], i); }
  }
}
