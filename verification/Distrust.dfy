/** What a viewer's distrusts do to forward scores: they lower them and never steer the search. */
module Distrust {
  import opened Csr
  import opened Transpose
  import opened Walks
  import opened Bfs
  import opened Reals
  import opened Scores
  import opened Forward
  import opened Reverse
  import opened Meaning
  import opened Agreement

  // ----- one penalty per distrusted out-edge -----

  /** Each further out-edge to a distrusted user costs a quarter; every other edge is free. */
  lemma ReliabilitySteps(row: seq<nat>, x: nat, distrusts: set<nat>)
    ensures Reliability([], distrusts) == 1.0
    ensures Reliability(row + [x], distrusts) == (if x in distrusts then 0.75 else 1.0) * Reliability(row, distrusts)
  {
    assert (row + [x])[..|row|] == row;
  }

  /** A directly distrusted user scores zero, whatever evidence there is. */
  lemma DirectDistrustIsZero(g: Rows, source: nat, distrusts: set<nat>, maxDepth: nat, t: nat)
    requires Closed(g) && source < |g| && maxDepth >= 1
    ensures var scores := ForwardScores(g, source, distrusts, maxDepth);
            t in scores && t in distrusts ==> scores[t] == 0.0
  {}

  // ----- more distrusts, same search, lower scores -----

  lemma {:induction false} MoreDistrusted(row: seq<nat>, a: set<nat>, b: set<nat>)
    requires a <= b
    ensures DistrustedIn(row, a) <= DistrustedIn(row, b)
  {
    if row != [] { MoreDistrusted(row[..|row| - 1], a, b); }
  }

  lemma ReliabilityAntitone(row: seq<nat>, a: set<nat>, b: set<nat>)
    requires a <= b
    ensures 0.0 < Reliability(row, b) <= Reliability(row, a) <= 1.0
  {
    MoreDistrusted(row, a, b);
    PowRange(1.0 - DISTRUST_PENALTY, DistrustedIn(row, b));
    PowRange(1.0 - DISTRUST_PENALTY, DistrustedIn(row, a));
    PowAntitone(1.0 - DISTRUST_PENALTY, DistrustedIn(row, a), DistrustedIn(row, b));
  }

  /** The same discovery, with a score at most as high. */
  ghost predicate Dims(x: Visit, y: Visit) {
    x.node == y.node && x.hops == y.hops && 0.0 < y.score <= x.score <= 1.0
  }

  ghost predicate AllDim(a: seq<Visit>, b: seq<Visit>) {
    |a| == |b| && forall i :: 0 <= i < |a| ==> Dims(a[i], b[i])
  }

  ghost predicate MoreDistrusting(c: Search, c': Search) {
    c' == Search(c.g, c.avoid, c'.distrusts, c.bound) && c.distrusts <= c'.distrusts
  }

  lemma FoundDims(c: Search, c': Search, x: Visit, y: Visit, v: nat)
    requires MoreDistrusting(c, c') && Dims(x, y) && v < |c.g|
    ensures Dims(Found(c, x, v), Found(c', y, v))
  {
    var r, r' := Reliability(c.g[v], c.distrusts), Reliability(c.g[v], c'.distrusts);
    ReliabilityAntitone(c.g[v], c.distrusts, c'.distrusts);
    MulMonotone(y.score * DECAY, x.score * DECAY, r', r);
    MulPositive(y.score * DECAY, r');
    MulMonotone(x.score * DECAY, 1.0, r, 1.0);
  }

  lemma {:induction false} ScanDims(c: Search, c': Search, x: Visit, y: Visit, k: nat, a: seq<Visit>, b: seq<Visit>)
    requires Closed(c.g) && MoreDistrusting(c, c') && Dims(x, y) && AllDim(a, b)
    requires x.node < |c.g| && k <= |c.g[x.node]|
    ensures AllDim(Scan(c, x, k, a), Scan(c', y, k, b))
  {
    if k > 0 {
      var v := c.g[x.node][k - 1];
      ScanDims(c, c', x, y, k - 1, a, b);
      FoundDims(c, c', x, y, v);
      SeenDims(Scan(c, x, k - 1, a), Scan(c', y, k - 1, b), v);
    }
  }

  lemma SeenDims(a: seq<Visit>, b: seq<Visit>, v: nat)
    requires AllDim(a, b)
    ensures Seen(a, v) <==> Seen(b, v)
  {
    if i :| 0 <= i < |a| && a[i].node == v { assert b[i].node == v; }
    if i :| 0 <= i < |b| && b[i].node == v { assert Dims(a[i], b[i]); }
  }

  lemma {:induction false} OrderDims(c: Search, c': Search, roots: seq<nat>, n: nat)
    requires Closed(c.g) && Below(roots, |c.g|) && MoreDistrusting(c, c')
    ensures AllDim(Order(c, roots, n), Order(c', roots, n))
  {
    if n == 0 {
      forall i | 0 <= i < |roots| ensures Dims(Roots(c, roots)[i], Roots(c', roots)[i]) {
        ReliabilityAntitone(c.g[roots[i]], c.distrusts, c'.distrusts);
      }
    } else {
      OrderDims(c, c', roots, n - 1);
      var a, b := Order(c, roots, n - 1), Order(c', roots, n - 1);
      if n - 1 < |a| && a[n - 1].hops < c.bound {
        ScanDims(c, c', a[n - 1], b[n - 1], |c.g[a[n - 1].node]|, a, b);
      }
    }
  }

  lemma ScoreDims(a: seq<Visit>, b: seq<Visit>, t: nat)
    requires AllDim(a, b) && Distinct(a) && Seen(a, t)
    ensures Seen(b, t) && 0.0 < ScoreOf(b, t) <= ScoreOf(a, t) <= 1.0
  {
    SeenDims(a, b, t);
    var i :| 0 <= i < |a| && a[i].node == t;
    ScoreAt(a, i);
    assert Distinct(b) by {
      forall i, j | 0 <= i < j < |b| ensures b[i].node != b[j].node { assert Dims(a[i], b[i]) && Dims(a[j], b[j]); }
    }
    assert Dims(a[i], b[i]);
    ScoreAt(b, i);
  }

  /** Group by group: the same first hops report `t`, each with a score at most as high. */
  lemma GroupsDim(g: Rows, source: nat, few: set<nat>, many: set<nat>, maxDepth: nat, t: nat)
    requires Closed(g) && source < |g| && maxDepth >= 1 && few <= many
    ensures var a, b := GroupsFor(g, source, few, maxDepth, t), GroupsFor(g, source, many, maxDepth, t);
            && a.Keys == b.Keys && Probabilities(a) && Probabilities(b)
            && forall f: nat :: Score(b, f) <= Score(a, f)
  {
    var a, b := GroupsFor(g, source, few, maxDepth, t), GroupsFor(g, source, many, maxDepth, t);
    var c, c' := GroupSearch(g, source, few, maxDepth), GroupSearch(g, source, many, maxDepth);
    hide FullOrder, Order, Seen, ScoreOf;
    forall f | f in FirstHops(g, source)
      ensures f in a <==> f in b
      ensures f in a ==> 0.0 < b[f] <= a[f] <= 1.0
    {
      GroupDims(c, c', f, t);
    }
    assert a.Keys == b.Keys;
  }

  lemma GroupDims(c: Search, c': Search, f: nat, t: nat)
    requires Closed(c.g) && MoreDistrusting(c, c') && f < |c.g| && f !in c.avoid
    ensures var x, y := FullOrder(c, [f]), FullOrder(c', [f]);
            && (Seen(x, t) <==> Seen(y, t))
            && (Seen(x, t) ==> 0.0 < ScoreOf(y, t) <= ScoreOf(x, t) <= 1.0)
  {
    OrderDims(c, c', [f], |c.g|);
    OrderLevel(c, [f], |c.g|);
    SeenDims(FullOrder(c, [f]), FullOrder(c', [f]), t);
    if Seen(FullOrder(c, [f]), t) {
      ScoreDims(FullOrder(c, [f]), FullOrder(c', [f]), t);
    }
  }

  /** Whom a group reports does not depend on distrusts at all. */
  lemma Reported(g: Rows, source: nat, distrusts: set<nat>, maxDepth: nat, f: nat, t: nat)
    requires Closed(g) && source < |g| && maxDepth >= 1
    ensures f in GroupsFor(g, source, distrusts, maxDepth, t) <==>
              FirstHop(g, source, f) && Dist(g, {source}, f, t, maxDepth - 1).Some?
  {
    GroupsDim(g, source, {}, distrusts, maxDepth, t);
    ForwardMeaning(g, source, maxDepth, t);
  }

  /** For two viewers' tables that differ in any way, as long as the source itself distrusts no fewer users in the
      second: the same targets are reached and no score rises. Nobody else's distrusts matter. */
  lemma DistrustAntitone(g: Rows, source: nat, few: map<nat, set<nat>>, many: map<nat, set<nat>>, maxDepth: nat)
    requires Closed(g) && source < |g| && maxDepth >= 1
    requires DistrustsOf(few, source) <= DistrustsOf(many, source)
    ensures var a := ForwardScores(g, source, DistrustsOf(few, source), maxDepth);
            var b := ForwardScores(g, source, DistrustsOf(many, source), maxDepth);
            a.Keys == b.Keys && forall t :: t in a ==> 0.0 <= b[t] <= a[t] <= 1.0
  {
    var x, y := DistrustsOf(few, source), DistrustsOf(many, source);
    var a, b := ForwardScores(g, source, x, maxDepth), ForwardScores(g, source, y, maxDepth);
    forall t: nat | t < |g|
      ensures t in a <==> t in b
      ensures t in a ==> 0.0 <= b[t] <= a[t] <= 1.0
    {
      PairAntitone(g, source, x, y, maxDepth, t);
    }
    assert a.Keys == b.Keys;
  }

  lemma PairAntitone(g: Rows, source: nat, few: set<nat>, many: set<nat>, maxDepth: nat, t: nat)
    requires Closed(g) && source < |g| && maxDepth >= 1 && few <= many && t < |g|
    ensures var a, b := ForwardScores(g, source, few, maxDepth), ForwardScores(g, source, many, maxDepth);
            (t in a <==> t in b) && (t in a ==> 0.0 <= b[t] <= a[t] <= 1.0)
  {
    var a, b := GroupsFor(g, source, few, maxDepth, t), GroupsFor(g, source, many, maxDepth, t);
    GroupsDim(g, source, few, many, maxDepth, t);
    hide GroupsFor, Closed;
    assert a.Keys == {} <==> a == map[];
    assert b.Keys == {} <==> b == map[];
    MissAntitone(b, a, |g|);
    MissRange(a, |g|);
    MissRange(b, |g|);
  }

  /** A distrust-penalised forward score never exceeds the reverse score of the same pair. */
  lemma DistrustedBelowReverse(g: Rows, s: nat, t: nat, distrusts: set<nat>, maxDepth: nat)
    requires Closed(g) && s < |g| && t < |g| && s != t && maxDepth >= 1
    ensures Closed(Transposed(g)) && |Transposed(g)| == |g|
    ensures var forward, reverse := ForwardScores(g, s, distrusts, maxDepth), ReverseScores(Transposed(g), t, maxDepth);
            t in forward ==> s in reverse && forward[t] <= reverse[s]
  {
    PairAntitone(g, s, {}, distrusts, maxDepth, t);
    ForwardBelowReverse(g, s, t, maxDepth);
  }
}
