/** What the two searches compute, in terms of walks alone. */
module Meaning {
  import opened Csr
  import opened Transpose
  import opened Walks
  import opened Bfs
  import opened Reals
  import opened Scores
  import opened Forward
  import opened Reverse

  /** One group per first hop `f`; its score is the best over all walks `source -> f -> ... -> t`
      that stay clear of the source, that is, the shortest one's. */
  ghost function ForwardEvidence(g: Rows, source: nat, t: nat, maxDepth: nat): Groups
    requires source < |g| && maxDepth >= 1
  {
    map f: nat | f < |g| && FirstHop(g, source, f) && Dist(g, {source}, f, t, maxDepth - 1).Some? ::
      Pow(DECAY, Dist(g, {source}, f, t, maxDepth - 1).value)
  }

  /** One group per out-neighbour `p` of `a`, itself included if it trusts itself. */
  ghost function ReverseEvidence(g: Rows, a: nat, reader: nat, maxDepth: nat): Groups
    requires a < |g| && maxDepth >= 1
  {
    map p: nat | p < |g| && p in g[a] && Dist(g, {}, p, reader, maxDepth - 1).Some? ::
      Pow(DECAY, Dist(g, {}, p, reader, maxDepth - 1).value)
  }

  // ----- forward -----

  lemma {:induction false} NoDistrust(row: seq<nat>)
    ensures DistrustedIn(row, {}) == 0
  {
    if row != [] { NoDistrust(row[..|row| - 1]); }
  }

  /** Without distrusts a discovery's score is the decay of its distance. */
  lemma {:induction false} OrderScores(c: Search, roots: seq<nat>, n: nat, i: nat)
    requires Closed(c.g) && Below(roots, |c.g|) && c.distrusts == {} && i < |Order(c, roots, n)|
    ensures Order(c, roots, n)[i].score == Pow(DECAY, Order(c, roots, n)[i].hops)
  {
    if n == 0 {
      NoDistrust(c.g[roots[i]]);
    } else {
      var before, after := Order(c, roots, n - 1), Order(c, roots, n);
      OrderExtends(c, roots, n - 1);
      if i < |before| {
        OrderScores(c, roots, n - 1, i);
      } else {
        OrderScores(c, roots, n - 1, n - 1);
        ScanFacts(c, before[n - 1], |c.g[before[n - 1].node]|, before);
        NoDistrust(c.g[after[i].node]);
      }
    }
  }

  lemma GroupMeaning(g: Rows, source: nat, maxDepth: nat, f: nat, t: nat)
    requires Closed(g) && source < |g| && maxDepth >= 1 && FirstHop(g, source, f)
    ensures var order := FullOrder(GroupSearch(g, source, {}, maxDepth), [f]);
            var d := Dist(g, {source}, f, t, maxDepth - 1);
            && (Seen(order, t) <==> d.Some?)
            && (Seen(order, t) ==> ScoreOf(order, t) == Pow(DECAY, d.value))
  {
    var c := GroupSearch(g, source, {}, maxDepth);
    var order := FullOrder(c, [f]);
    var d := Dist(g, {source}, f, t, maxDepth - 1);
    if d.Some? {
      RootDistance(c, f, t, d.value);
      var i :| 0 <= i < |order| && order[i].node == t && order[i].hops == d.value;
    }
    if Seen(order, t) {
      var i :| 0 <= i < |order| && order[i].node == t;
      RootDistance(c, f, t, order[i].hops);
      OrderLevel(c, [f], |g|);
      ScoreAt(order, i);
      OrderScores(c, [f], |g|, i);
    }
  }

  /** Forward search without distrusts combines, over the distinct first hops, the decay of the distance that
      remains in the graph without the source. */
  lemma ForwardMeaning(g: Rows, source: nat, maxDepth: nat, t: nat)
    requires Closed(g) && source < |g| && maxDepth >= 1
    ensures GroupsFor(g, source, {}, maxDepth, t) == ForwardEvidence(g, source, t, maxDepth)
  {
    var a, b := GroupsFor(g, source, {}, maxDepth, t), ForwardEvidence(g, source, t, maxDepth);
    forall f: nat | FirstHop(g, source, f) ensures f in a <==> f in b
                                         ensures f in a ==> a[f] == b[f] {
      GroupMeaning(g, source, maxDepth, f, t);
    }
    assert a.Keys == b.Keys;
  }

  /** A group's score is attained by one of its walks and no other walk of the group beats it. */
  lemma GroupIsBest(g: Rows, source: nat, maxDepth: nat, f: nat, t: nat)
    requires Closed(g) && source < |g| && maxDepth >= 1
    ensures var m := ForwardEvidence(g, source, t, maxDepth);
            && (f in m ==>
                  exists p :: WalkBetween(g, {source}, f, t, p) && |p| <= maxDepth && m[f] == Pow(DECAY, |p| - 1))
            && (FirstHop(g, source, f) ==>
                  forall p :: WalkBetween(g, {source}, f, t, p) && |p| <= maxDepth ==>
                                f in m && Pow(DECAY, |p| - 1) <= m[f])
  {
    var m := ForwardEvidence(g, source, t, maxDepth);
    var d := Dist(g, {source}, f, t, maxDepth - 1);
    DistMeaning(g, {source}, f, t, maxDepth - 1);
    if f in m {
      var p :| WalkBetween(g, {source}, f, t, p) && |p| == d.value + 1;
      assert |p| <= maxDepth && m[f] == Pow(DECAY, |p| - 1);
    }
    if FirstHop(g, source, f) {
      forall p | WalkBetween(g, {source}, f, t, p) && |p| <= maxDepth ensures f in m && Pow(DECAY, |p| - 1) <= m[f] {
        assert Hops(g, {source}, f, t, |p| - 1);
        PowAntitone(DECAY, d.value, |p| - 1);
      }
    }
  }

  // ----- reverse -----

  /** `rg` has the reverse of every edge of `g`. */
  ghost predicate Mirrors(g: Rows, rg: Rows) {
    |rg| == |g| && forall s: nat, t: nat :: s < |g| && t < |g| && t in g[s] ==> s in rg[t]
  }

  lemma TransposeMirrors(g: Rows)
    ensures Mirrors(g, Transposed(g)) && Mirrors(Transposed(g), g)
  {
    forall s: nat, t: nat | s < |g| && t < |g| ensures t in g[s] <==> s in Transposed(g)[t] {
      TransposeFlips(g, s, t);
    }
  }

  /** Reversing a walk gives a walk of the mirrored graph. */
  lemma {:induction false} HopsMirror(g: Rows, rg: Rows, u: nat, v: nat, k: nat)
    requires Mirrors(g, rg) && Hops(g, {}, u, v, k)
    ensures Hops(rg, {}, v, u, k)
    decreases k
  {
    if k == 0 {
      HopsZero(g, {}, u, v);
      HopsZero(rg, {}, v, u);
    } else {
      hide Hops;
      var w := HopsUnsnoc(g, {}, u, v, k - 1);
      HopsMirror(g, rg, u, w, k - 1);
      HopsCons(rg, {}, v, w, u, k - 1);
    }
  }

  lemma DistFlip(g: Rows, u: nat, v: nat, bound: nat)
    requires Closed(g)
    ensures Dist(Transposed(g), {}, v, u, bound) == Dist(g, {}, u, v, bound)
  {
    TransposeMirrors(g);
    var rg := Transposed(g);
    hide Transposed, Mirrors;
    forall k: nat ensures Hops(g, {}, u, v, k) <==> Hops(rg, {}, v, u, k) {
      if Hops(g, {}, u, v, k) { HopsMirror(g, rg, u, v, k); }
      if Hops(rg, {}, v, u, k) { HopsMirror(rg, g, v, u, k); }
    }
    DistMeaning(g, {}, u, v, bound);
    DistMeaning(rg, {}, v, u, bound);
  }

  /** Expanding each node once, at its shallowest depth, records every group that any walk could record. */
  lemma ReverseMeaning(g: Rows, a: nat, reader: nat, maxDepth: nat)
    requires Closed(g) && a < |g| && reader < |g| && maxDepth >= 1
    ensures Closed(Transposed(g)) && |Transposed(g)| == |g|
    ensures ReverseGroups(Transposed(g), reader, maxDepth, a) == ReverseEvidence(g, a, reader, maxDepth)
  {
    TransposeClosed(g);
    var m, e := ReverseGroups(Transposed(g), reader, maxDepth, a), ReverseEvidence(g, a, reader, maxDepth);
    forall p: nat ensures p in m <==> p in e
                  ensures p in m ==> m[p] == e[p] {
      ReverseGroupMeaning(g, a, reader, maxDepth, p);
    }
    assert m.Keys == e.Keys;
  }

  lemma ReverseGroupMeaning(g: Rows, a: nat, reader: nat, maxDepth: nat, p: nat)
    requires Closed(g) && a < |g| && reader < |g| && maxDepth >= 1 && Closed(Transposed(g)) && |Transposed(g)| == |g|
    ensures var m, e := ReverseGroups(Transposed(g), reader, maxDepth, a), ReverseEvidence(g, a, reader, maxDepth);
            (p in m <==> p in e) && (p in m ==> m[p] == e[p])
  {
    var rg := Transposed(g);
    var c := ReverseSearch(rg, maxDepth);
    var order := FullOrder(c, [reader]);
    OrderLevel(c, [reader], |rg|);
    ContribKeys(rg, maxDepth, order, a, p);
    DistFlip(g, p, reader, maxDepth - 1);
    DistFlip(g, p, reader, maxDepth);
    DistMeaning(g, {}, p, reader, maxDepth - 1);
    DistMeaning(g, {}, p, reader, maxDepth);
    if p < |g| { TransposeFlips(g, a, p); }
    var d := Dist(g, {}, p, reader, maxDepth);
    if d.Some? {
      RootDistance(c, reader, p, d.value);
      var i :| 0 <= i < |order| && order[i].node == p && order[i].hops == d.value;
      if p < |g| && p in g[a] && d.value < maxDepth {
        ContribScore(rg, maxDepth, order, a, i);
      }
    }
    if p in ReverseGroups(rg, reader, maxDepth, a) {
      var i :| 0 <= i < |order| && order[i].node == p && order[i].hops < maxDepth && p < |rg| && a in rg[p];
      RootDistance(c, reader, p, order[i].hops);
    }
  }
}
