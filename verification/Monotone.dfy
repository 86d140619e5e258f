/** Two promises of bottleneck grouping: more trust edges never hurt, and a single bottleneck caps the score. */
module Monotone {
  import opened Csr
  import opened Walks
  import opened Reals
  import opened Scores
  import opened Forward
  import opened Meaning
  import opened Agreement
  import opened Distrust

  /** Nodes without evidence do not count. */
  lemma {:induction false} MissPadded(m: Groups, n: nat, n': nat)
    requires n <= n' && forall k :: k in m ==> k < n
    ensures Miss(m, n') == Miss(m, n)
    decreases n'
  {
    if n < n' { MissPadded(m, n, n' - 1); }
  }

  lemma EvidenceExtends(g: Rows, h: Rows, s: nat, t: nat, maxDepth: nat, f: nat)
    requires SubGraph(g, h) && s < |g| && maxDepth >= 1
    ensures var a, b := ForwardEvidence(g, s, t, maxDepth), ForwardEvidence(h, s, t, maxDepth);
            (f in a ==> f in b) && Score(a, f) <= Score(b, f)
  {
    EvidenceIsProbable(h, s, t, maxDepth);
    if f in ForwardEvidence(g, s, t, maxDepth) {
      DistMeaning(g, {s}, f, t, maxDepth - 1);
      DistMeaning(h, {s}, f, t, maxDepth - 1);
      var d := Dist(g, {s}, f, t, maxDepth - 1).value;
      HopsMonotone(g, {s}, h, {s}, f, t, d);
      PowAntitone(DECAY, Dist(h, {s}, f, t, maxDepth - 1).value, d);
    }
  }

  lemma ForwardRead(g: Rows, s: nat, t: nat, maxDepth: nat)
    requires Closed(g) && s < |g| && maxDepth >= 1
    ensures var scores, e := ForwardScores(g, s, {}, maxDepth), ForwardEvidence(g, s, t, maxDepth);
            && (t in scores <==> t < |g| && e != map[])
            && (t in scores ==> scores[t] == Combined(e, |g|))
            && (forall k :: k in e ==> k < |g|)
  {
    ForwardMeaning(g, s, maxDepth, t);
  }

  /** Adding nodes and edges anywhere never loses a target and never lowers its score. */
  lemma EdgesNeverHurt(g: Rows, h: Rows, s: nat, t: nat, maxDepth: nat)
    requires Closed(g) && Closed(h) && SubGraph(g, h) && s < |g| && maxDepth >= 1
    ensures var a, b := ForwardScores(g, s, {}, maxDepth), ForwardScores(h, s, {}, maxDepth);
            t in a ==> t in b && a[t] <= b[t]
  {
    var a, b := ForwardEvidence(g, s, t, maxDepth), ForwardEvidence(h, s, t, maxDepth);
    ForwardRead(g, s, t, maxDepth);
    ForwardRead(h, s, t, maxDepth);
    EvidenceIsProbable(g, s, t, maxDepth);
    EvidenceIsProbable(h, s, t, maxDepth);
    hide ForwardScores, ForwardEvidence, Closed;
    forall f: nat ensures (f in a ==> f in b) && Score(a, f) <= Score(b, f) {
      EvidenceExtends(g, h, s, t, maxDepth, f);
    }
    if f :| f in a { assert f in b; }
    MissPadded(a, |g|, |h|);
    MissAntitone(a, b, |h|);
  }

  /** Every walk from `s` to `t` within `maxDepth` hops starts with the edge to `b`. */
  ghost predicate Bottleneck(g: Rows, s: nat, t: nat, maxDepth: nat, b: nat) {
    forall p :: WalkBetween(g, {}, s, t, p) && |p| <= maxDepth + 1 ==> |p| >= 2 && p[1] == b
  }

  /** A walk from a first hop, with the source in front, is a walk from the source. */
  lemma PrependSource(g: Rows, s: nat, f: nat, t: nat, p: seq<nat>)
    requires s < |g| && f in g[s] && WalkBetween(g, {s}, f, t, p)
    ensures WalkBetween(g, {}, s, t, [s] + p)
  {
    var q := [s] + p;
    forall i | 0 < i < |q| ensures q[i] in g[q[i - 1]] {
      if i > 1 { assert q[i] == p[i - 1] && q[i - 1] == p[i - 2] && p[i - 1] in g[p[i - 2]]; }
    }
    assert IsWalk(g, {}, q);
  }

  lemma OnlyBottleneck(g: Rows, s: nat, t: nat, maxDepth: nat, b: nat, f: nat)
    requires Closed(g) && s < |g| && maxDepth >= 1 && Bottleneck(g, s, t, maxDepth, b) && b != t
    ensures var e := ForwardEvidence(g, s, t, maxDepth);
            f in e ==> f == b && e[f] <= DECAY
  {
    var e := ForwardEvidence(g, s, t, maxDepth);
    if f in e {
      DistMeaning(g, {s}, f, t, maxDepth - 1);
      var d := Dist(g, {s}, f, t, maxDepth - 1).value;
      var p :| WalkBetween(g, {s}, f, t, p) && |p| == d + 1;
      PrependSource(g, s, f, t, p);
      assert ([s] + p)[1] == f;
      HopsZero(g, {s}, f, t);
      PowAntitone(DECAY, 1, d);
      assert Pow(DECAY, 1) == DECAY * Pow(DECAY, 0);
    }
  }

  /** Behind a single first hop, no number of accounts and edges earns more than one hop's decay, whatever the
      viewer distrusts. */
  lemma BottleneckCaps(g: Rows, s: nat, t: nat, distrusts: set<nat>, maxDepth: nat, b: nat)
    requires Closed(g) && s < |g| && t < |g| && maxDepth >= 1 && Bottleneck(g, s, t, maxDepth, b) && b != t
    ensures var scores := ForwardScores(g, s, distrusts, maxDepth);
            t in scores ==> scores[t] <= DECAY
  {
    PairAntitone(g, s, {}, distrusts, maxDepth, t);
    ForwardRead(g, s, t, maxDepth);
    var e := ForwardEvidence(g, s, t, maxDepth);
    forall f: nat ensures f in e ==> f == b && e[f] <= DECAY {
      OnlyBottleneck(g, s, t, maxDepth, b, f);
    }
    hide ForwardScores, ForwardEvidence, Closed;
    MissSingle(e, b, |g|);
  }
}
