/** The stored footprint of a retained set of nodes: renumbering and the node-induced subgraph. */
module Induced {
  import opened Csr
  import opened Transpose

  /** Marks a node that is not retained. */
  const NONE: nat := 0xFFFF_FFFF
  const STUB_ROW_BYTES: nat := 80

  datatype StoredFootprint = StoredFootprint(nodes: nat, edges: nat, csrBytes: nat, stubBytes: nat) {
    function TotalBytes(): nat {
      csrBytes + stubBytes
    }
  }

  /** The number of retained nodes before `i`: the compact id of `i`, if retained. */
  function Rank(retained: seq<bool>, i: nat): nat
    requires i <= |retained|
  {
    if i == 0 then 0 else Rank(retained, i - 1) + if retained[i - 1] then 1 else 0
  }

  predicate EdgeKept(retained: seq<bool>, e: Edge) {
    e.0 < |retained| && e.1 < |retained| && retained[e.0] && retained[e.1]
  }

  /** The edges between retained nodes, renumbered, in input order. */
  function InducedEdges(edges: seq<Edge>, retained: seq<bool>): seq<Edge> {
    if edges == [] then []
    else
      var e := edges[|edges| - 1];
      InducedEdges(edges[..|edges| - 1], retained)
      + if EdgeKept(retained, e) then [(Rank(retained, e.0), Rank(retained, e.1))] else []
  }

  // ----- renumbering -----

  /** Renumbering keeps the order and so never merges two retained nodes. */
  lemma {:induction false} RankMonotone(retained: seq<bool>, i: nat, j: nat)
    requires i <= j <= |retained|
    ensures Rank(retained, i) <= Rank(retained, j) <= Rank(retained, i) + (j - i)
    ensures i < j && retained[i] ==> Rank(retained, i) < Rank(retained, j)
    decreases j
  {
    if i < j { RankMonotone(retained, i, j - 1); }
  }

  /** Every compact id below the number of retained nodes is used. */
  lemma {:induction false} RankOnto(retained: seq<bool>, c: nat, n: nat) returns (i: nat)
    requires n <= |retained| && c < Rank(retained, n)
    ensures i < n && retained[i] && Rank(retained, i) == c
    decreases n
  {
    if c == Rank(retained, n - 1) { i := n - 1; } else { i := RankOnto(retained, c, n - 1); }
  }

  /** Keeping more nodes keeps more. */
  lemma {:induction false} RankWider(a: seq<bool>, b: seq<bool>, i: nat)
    requires |a| == |b| && i <= |a| && forall k :: 0 <= k < |a| && a[k] ==> b[k]
    ensures Rank(a, i) <= Rank(b, i)
  {
    if i > 0 { RankWider(a, b, i - 1); }
  }

  // ----- edges -----

  lemma {:induction false} InducedBelow(edges: seq<Edge>, retained: seq<bool>)
    ensures EndpointsBelow(Rank(retained, |retained|), InducedEdges(edges, retained))
  {
    if edges != [] {
      var e := edges[|edges| - 1];
      InducedBelow(edges[..|edges| - 1], retained);
      if EdgeKept(retained, e) {
        RankMonotone(retained, e.0, |retained|);
        RankMonotone(retained, e.1, |retained|);
      }
    }
  }

  /** A row with the dropped targets removed and the others renumbered. */
  function Compact(row: seq<nat>, retained: seq<bool>): seq<nat> {
    if row == [] then []
    else
      var t := row[|row| - 1];
      Compact(row[..|row| - 1], retained) + if t < |retained| && retained[t] then [Rank(retained, t)] else []
  }

  /** A retained node's new adjacency list is its old one, filtered and renamed, in order. */
  lemma {:induction false} InducedRow(edges: seq<Edge>, retained: seq<bool>, i: nat)
    requires EndpointsBelow(|retained|, edges) && i < |retained| && retained[i]
    ensures Row(InducedEdges(edges, retained), Rank(retained, i)) == Compact(Row(edges, i), retained)
  {
    if edges != [] {
      var init, e := edges[..|edges| - 1], edges[|edges| - 1];
      InducedRow(init, retained, i);
      var kept := InducedEdges(init, retained);
      if e.0 < i { RankMonotone(retained, e.0, i); } else if i < e.0 { RankMonotone(retained, i, e.0); }
      if EdgeKept(retained, e) {
        var renamed := (Rank(retained, e.0), Rank(retained, e.1));
        assert (kept + [renamed])[..|kept|] == kept;
      }
      assert kept + [] == kept && Row(init, i) + [] == Row(init, i);
      if e.0 == i {
        assert (Row(init, i) + [e.1])[..|Row(init, i)|] == Row(init, i);
      }
    }
  }

  ghost function KeptEdges(edges: seq<Edge>, retained: seq<bool>): set<nat> {
    set k: nat | k < |edges| && edges[k].0 < |retained| && edges[k].1 < |retained| && retained[edges[k].0]
        && retained[edges[k].1]
  }

  /** One stored edge for every edge with both ends retained, parallel edges included. */
  lemma {:induction false} InducedCount(edges: seq<Edge>, retained: seq<bool>)
    ensures |InducedEdges(edges, retained)| == |KeptEdges(edges, retained)|
  {
    if edges == [] {
      assert KeptEdges(edges, retained) == {};
    } else {
      var n := |edges| - 1;
      var init := edges[..n];
      InducedCount(init, retained);
      if EdgeKept(retained, edges[n]) {
        assert KeptEdges(edges, retained) == KeptEdges(init, retained) + {n};
      } else {
        assert KeptEdges(edges, retained) == KeptEdges(init, retained);
      }
    }
  }

  ghost function Kept(retained: seq<bool>, n: nat): set<nat>
    requires n <= |retained|
  {
    set i: nat | i < n && retained[i]
  }

  /** A node's compact id is the number of retained nodes before it. */
  lemma {:induction false} RankCounts(retained: seq<bool>, n: nat)
    requires n <= |retained|
    ensures Rank(retained, n) == |Kept(retained, n)|
  {
    if n == 0 {
      assert Kept(retained, 0) == {};
    } else {
      RankCounts(retained, n - 1);
      var last := n - 1;
      assert Kept(retained, n) == Kept(retained, last) + if retained[last] then {last} else {};
    }
  }

  lemma {:induction false} InducedWider(edges: seq<Edge>, a: seq<bool>, b: seq<bool>)
    requires |a| == |b| && forall k :: 0 <= k < |a| && a[k] ==> b[k]
    ensures |InducedEdges(edges, a)| <= |InducedEdges(edges, b)|
  {
    if edges != [] { InducedWider(edges[..|edges| - 1], a, b); }
  }

  // ----- the code -----

  ghost function Footprint(edges: seq<Edge>, retained: seq<bool>): StoredFootprint {
    var n, e := Rank(retained, |retained|), |InducedEdges(edges, retained)|;
    StoredFootprint(n, e, 8 * (n + 1) + 8 * e, n * STUB_ROW_BYTES)
  }

  method RemapIds(retained: seq<bool>) returns (remap: array<nat>, kept: nat)
    requires |retained| <= NONE
    ensures fresh(remap) && remap.Length == |retained| && kept == Rank(retained, |retained|)
    ensures forall i {:trigger remap[i]} :: 0 <= i < |retained| ==>
              remap[i] == if retained[i] then Rank(retained, i) else NONE
  {
    remap := new nat[|retained|](_ => NONE);
    kept := 0;
    for id := 0 to |retained|
      invariant kept == Rank(retained, id)
      invariant forall i {:trigger remap[i]} :: 0 <= i < |retained| ==>
                remap[i] == if i < id && retained[i] then Rank(retained, i) else NONE
    {
      if retained[id] {
        remap[id] := kept;
        kept := kept + 1;
      }
    }
  }

  method InducedFootprint(edges: seq<Edge>, retained: seq<bool>) returns (footprint: StoredFootprint)
    requires |retained| <= NONE && EndpointsBelow(|retained|, edges)
    ensures footprint == Footprint(edges, retained)
  {
    var remap, kept := RemapIds(retained);
    var induced: seq<Edge> := [];
    for k := 0 to |edges|
      invariant forall i {:trigger remap[i]} :: 0 <= i < |retained| ==>
                remap[i] == if retained[i] then Rank(retained, i) else NONE
      invariant induced == InducedEdges(edges[..k], retained)
    {
      var (s, t) := edges[k];
      assert edges[..k + 1][..k] == edges[..k] && edges[..k + 1][k] == (s, t);
      RankMonotone(retained, 0, s);
      RankMonotone(retained, 0, t);
      var rs, rt := remap[s], remap[t];
      assert rs != NONE && rt != NONE <==> EdgeKept(retained, (s, t));
      if rs != NONE && rt != NONE {
        induced := induced + [(rs, rt)];
      }
    }
    assert edges[..|edges|] == edges;
    InducedBelow(edges, retained);
    var dual := DualFromEdges(kept, induced);
    footprint := StoredFootprint(kept, |induced|, dual.MemoryBytes(), kept * STUB_ROW_BYTES);
  }

  /** A retained node costs an offset in each direction and a stub row, a retained edge a target in each direction. */
  lemma FootprintBytes(edges: seq<Edge>, retained: seq<bool>)
    ensures Footprint(edges, retained).TotalBytes()
              == 88 * |Kept(retained, |retained|)| + 8 * |KeptEdges(edges, retained)| + 8
  {
    RankCounts(retained, |retained|);
    InducedCount(edges, retained);
  }

  /** A smaller retained set never stores more nodes, edges or bytes. */
  lemma FootprintMonotone(edges: seq<Edge>, a: seq<bool>, b: seq<bool>)
    requires |a| == |b| && forall k :: 0 <= k < |a| && a[k] ==> b[k]
    ensures var x, y := Footprint(edges, a), Footprint(edges, b);
            x.nodes <= y.nodes && x.edges <= y.edges && x.csrBytes <= y.csrBytes && x.stubBytes <= y.stubBytes
            && x.TotalBytes() <= y.TotalBytes()
  {
    RankWider(a, b, |a|);
    InducedWider(edges, a, b);
  }
}
