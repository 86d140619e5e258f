/** Walks and distances: the reference meaning of every search in the project. */
module Walks {
  import opened Csr
  import opened Options

  /** A walk visits nodes outside `avoid`, each an out-neighbour of the one before. */
  ghost predicate IsWalk(g: Rows, avoid: set<nat>, p: seq<nat>) {
    && p != []
    && (forall i :: 0 <= i < |p| ==> p[i] < |g| && p[i] !in avoid)
    && (forall i {:trigger p[i]} :: 0 < i < |p| ==> p[i] in g[p[i - 1]])
  }

  ghost predicate WalkBetween(g: Rows, avoid: set<nat>, u: nat, v: nat, p: seq<nat>) {
    IsWalk(g, avoid, p) && p[0] == u && p[|p| - 1] == v
  }

  /** Some walk from `u` to `v` has exactly `k` edges. */
  ghost predicate Hops(g: Rows, avoid: set<nat>, u: nat, v: nat, k: nat) {
    exists p :: WalkBetween(g, avoid, u, v, p) && |p| == k + 1
  }

  /** The least number of edges from `u` to `v`, if it is at most `bound`. */
  ghost function Dist(g: Rows, avoid: set<nat>, u: nat, v: nat, bound: nat): Option<nat> {
    if bound > 0 && Dist(g, avoid, u, v, bound - 1).Some? then Dist(g, avoid, u, v, bound - 1)
    else if Hops(g, avoid, u, v, bound) then Some(bound)
    else None
  }

  lemma {:induction false} DistMeaning(g: Rows, avoid: set<nat>, u: nat, v: nat, bound: nat)
    ensures var d := Dist(g, avoid, u, v, bound);
            match d
            case None => forall k: nat :: k <= bound ==> !Hops(g, avoid, u, v, k)
            case Some(m) => m <= bound && Hops(g, avoid, u, v, m) && forall k: nat :: k < m ==> !Hops(g, avoid, u, v, k)
  {
    if bound > 0 { DistMeaning(g, avoid, u, v, bound - 1); }
  }

  lemma HopsZero(g: Rows, avoid: set<nat>, u: nat, v: nat)
    ensures Hops(g, avoid, u, v, 0) <==> u == v && u < |g| && u !in avoid
  {
    if u == v && u < |g| && u !in avoid {
      assert WalkBetween(g, avoid, u, v, [u]);
    }
  }

  lemma HopsOne(g: Rows, avoid: set<nat>, u: nat, v: nat)
    ensures Hops(g, avoid, u, v, 1) <==> u < |g| && u !in avoid && v < |g| && v !in avoid && v in g[u]
  {
    if u < |g| && u !in avoid && v < |g| && v !in avoid && v in g[u] {
      assert WalkBetween(g, avoid, u, v, [u, v]);
    }
    if Hops(g, avoid, u, v, 1) {
      var p :| WalkBetween(g, avoid, u, v, p) && |p| == 2;
      assert p[1] in g[p[0]];
    }
  }

  /** Walks grow at the far end. */
  lemma HopsSnoc(g: Rows, avoid: set<nat>, u: nat, w: nat, v: nat, k: nat)
    requires Hops(g, avoid, u, w, k) && v < |g| && v !in avoid && w < |g| && v in g[w]
    ensures Hops(g, avoid, u, v, k + 1)
  {
    var p :| WalkBetween(g, avoid, u, w, p) && |p| == k + 1;
    assert WalkBetween(g, avoid, u, v, p + [v]);
  }

  lemma HopsUnsnoc(g: Rows, avoid: set<nat>, u: nat, v: nat, k: nat) returns (w: nat)
    requires Hops(g, avoid, u, v, k + 1)
    ensures w < |g| && w !in avoid && v < |g| && v !in avoid && v in g[w] && Hops(g, avoid, u, w, k)
  {
    var p :| WalkBetween(g, avoid, u, v, p) && |p| == k + 2;
    w := p[k];
    assert p[k + 1] in g[p[k]];
    assert WalkBetween(g, avoid, u, w, p[..k + 1]);
  }

  /** Walks grow at the near end. */
  lemma HopsCons(g: Rows, avoid: set<nat>, u: nat, w: nat, v: nat, k: nat)
    requires u < |g| && u !in avoid && w in g[u] && Hops(g, avoid, w, v, k)
    ensures Hops(g, avoid, u, v, k + 1)
  {
    var p :| WalkBetween(g, avoid, w, v, p) && |p| == k + 1;
    assert WalkBetween(g, avoid, u, v, [u] + p);
  }

  lemma HopsUncons(g: Rows, avoid: set<nat>, u: nat, v: nat, k: nat) returns (w: nat)
    requires Hops(g, avoid, u, v, k + 1)
    ensures u < |g| && u !in avoid && w in g[u] && Hops(g, avoid, w, v, k)
  {
    var p :| WalkBetween(g, avoid, u, v, p) && |p| == k + 2;
    w := p[1];
    assert WalkBetween(g, avoid, w, v, p[1..]);
  }

  /** A walk that meets `avoid` nowhere is a walk of any graph with more edges and fewer forbidden nodes. */
  lemma HopsMonotone(g: Rows, avoid: set<nat>, h: Rows, avoid': set<nat>, u: nat, v: nat, k: nat)
    requires SubGraph(g, h) && avoid' <= avoid && Hops(g, avoid, u, v, k)
    ensures Hops(h, avoid', u, v, k)
  {
    var p :| WalkBetween(g, avoid, u, v, p) && |p| == k + 1;
    forall i | 0 < i < |p| ensures p[i] in h[p[i - 1]] {
      assert p[i] in g[p[i - 1]];
    }
    assert WalkBetween(h, avoid', u, v, p);
  }

  /** Every edge of `g` is an edge of `h`, which may have more nodes. */
  ghost predicate SubGraph(g: Rows, h: Rows) {
    |g| <= |h| && forall i, x :: 0 <= i < |g| && x in g[i] ==> x in h[i]
  }
}
