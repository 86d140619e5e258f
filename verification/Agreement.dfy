/** When forward and reverse search give the same trust for a pair of users. */
module Agreement {
  import opened Csr
  import opened Transpose
  import opened Walks
  import opened Reals
  import opened Scores
  import opened Forward
  import opened Reverse
  import opened Meaning

  /** Both searches report the pair with the same score, or neither reports it. */
  ghost predicate Agree(g: Rows, s: nat, t: nat, maxDepth: nat)
    requires Closed(g) && s < |g| && t < |g| && maxDepth >= 1
  {
    TransposeClosed(g);
    var forward := ForwardScores(g, s, {}, maxDepth);
    var reverse := ReverseScores(Transposed(g), t, maxDepth);
    (t in forward <==> s in reverse) && (t in forward ==> forward[t] == reverse[s])
  }

  /** Both results, read off the evidence for the pair. */
  lemma ReadOff(g: Rows, s: nat, t: nat, maxDepth: nat)
    requires Closed(g) && s < |g| && t < |g| && s != t && maxDepth >= 1
    ensures Closed(Transposed(g)) && |Transposed(g)| == |g|
    ensures var forward, f := ForwardScores(g, s, {}, maxDepth), ForwardEvidence(g, s, t, maxDepth);
            (t in forward <==> f != map[]) && (t in forward ==> forward[t] == Combined(f, |g|))
    ensures var reverse, r := ReverseScores(Transposed(g), t, maxDepth), ReverseEvidence(g, s, t, maxDepth);
            (s in reverse <==> r != map[]) && (s in reverse ==> reverse[s] == Combined(r, |g|))
  {
    ForwardMeaning(g, s, maxDepth, t);
    ReverseMeaning(g, s, t, maxDepth);
  }

  lemma EvidenceIsProbable(g: Rows, s: nat, t: nat, maxDepth: nat)
    requires s < |g| && maxDepth >= 1
    ensures Probabilities(ForwardEvidence(g, s, t, maxDepth))
    ensures Probabilities(ReverseEvidence(g, s, t, maxDepth))
  {
    forall k: nat { PowRange(DECAY, k); }
  }

  /** Removing the source can only lengthen the way from a first hop. */
  lemma EvidenceGrows(g: Rows, s: nat, t: nat, maxDepth: nat, p: nat)
    requires Closed(g) && s < |g| && t < |g| && maxDepth >= 1
    ensures var f, r := ForwardEvidence(g, s, t, maxDepth), ReverseEvidence(g, s, t, maxDepth);
            (p in f ==> p in r) && Score(f, p) <= Score(r, p)
  {
    EvidenceIsProbable(g, s, t, maxDepth);
    if p in ForwardEvidence(g, s, t, maxDepth) {
      DistMeaning(g, {s}, p, t, maxDepth - 1);
      DistMeaning(g, {}, p, t, maxDepth - 1);
      var d := Dist(g, {s}, p, t, maxDepth - 1).value;
      HopsMonotone(g, {s}, g, {}, p, t, d);
      PowAntitone(DECAY, Dist(g, {}, p, t, maxDepth - 1).value, d);
    }
  }

  /** At any depth and on any graph, reverse search reports every pair that forward search reports,
      with at least its score. */
  lemma ForwardBelowReverse(g: Rows, s: nat, t: nat, maxDepth: nat)
    requires Closed(g) && s < |g| && t < |g| && s != t && maxDepth >= 1
    ensures Closed(Transposed(g)) && |Transposed(g)| == |g|
    ensures var forward, reverse := ForwardScores(g, s, {}, maxDepth), ReverseScores(Transposed(g), t, maxDepth);
            t in forward ==> s in reverse && forward[t] <= reverse[s]
  {
    ReadOff(g, s, t, maxDepth);
    EvidenceIsProbable(g, s, t, maxDepth);
    var f, r := ForwardEvidence(g, s, t, maxDepth), ReverseEvidence(g, s, t, maxDepth);
    forall p: nat ensures (p in f ==> p in r) && Score(f, p) <= Score(r, p) {
      EvidenceGrows(g, s, t, maxDepth, p);
    }
    MissAntitone(f, r, |g|);
    if f != map[] {
      var p :| p in f;
      assert p in r;
    }
  }

  // ----- every depth -----

  lemma DirectTrust(g: Rows, s: nat, t: nat, maxDepth: nat)
    requires Closed(g) && s < |g| && t < |g| && s != t && maxDepth >= 1 && t in g[s]
    ensures var f, r := ForwardEvidence(g, s, t, maxDepth), ReverseEvidence(g, s, t, maxDepth);
            t in f && t in r && Score(f, t) == 1.0 == Score(r, t)
  {
    HopsZero(g, {s}, t, t);
    HopsZero(g, {}, t, t);
    DistMeaning(g, {s}, t, t, maxDepth - 1);
    DistMeaning(g, {}, t, t, maxDepth - 1);
  }

  /** Without a direct edge no group is certain. */
  lemma NoCertainty(g: Rows, s: nat, t: nat, maxDepth: nat)
    requires Closed(g) && s < |g| && t < |g| && maxDepth >= 1 && t !in g[s]
    ensures Miss(ForwardEvidence(g, s, t, maxDepth), |g|) > 0.0
  {
    var f := ForwardEvidence(g, s, t, maxDepth);
    forall p: nat | p < |g| ensures Score(f, p) < 1.0 {
      if p in f {
        DistMeaning(g, {s}, p, t, maxDepth - 1);
        HopsZero(g, {s}, p, t);
        PowAntitone(DECAY, 1, Dist(g, {s}, p, t, maxDepth - 1).value);
        assert Pow(DECAY, 1) == DECAY * Pow(DECAY, 0);
      }
    }
    MissPositive(f, |g|);
  }

  lemma AgreeOnEvidence(g: Rows, s: nat, t: nat, maxDepth: nat)
    requires Closed(g) && s < |g| && t < |g| && s != t && maxDepth >= 1
    ensures var f, r := ForwardEvidence(g, s, t, maxDepth), ReverseEvidence(g, s, t, maxDepth);
            Agree(g, s, t, maxDepth) <==>
              (f != map[] <==> r != map[]) && (f != map[] ==> Miss(f, |g|) == Miss(r, |g|))
  {
    ReadOff(g, s, t, maxDepth);
    hide ForwardScores, ReverseScores, ForwardEvidence, ReverseEvidence, Closed, Transposed;
  }

  /** Someone `s` trusts is closer to `t` when walks may pass through `s`. A self-loop of `s` counts whenever `s`
      reaches `t`, since no walk from `s` avoids `s`. */
  ghost predicate Shortcut(g: Rows, s: nat, t: nat, maxDepth: nat, p: nat)
    requires s < |g| && maxDepth >= 1
  {
    p < |g| && p in g[s] && Dist(g, {s}, p, t, maxDepth - 1) != Dist(g, {}, p, t, maxDepth - 1)
  }

  lemma NoWalkFromSource(g: Rows, s: nat, t: nat, bound: nat)
    ensures Dist(g, {s}, s, t, bound).None?
  {
    DistMeaning(g, {s}, s, t, bound);
  }

  /** The scores of one group, read off the distances around and through the source. */
  lemma GroupScores(g: Rows, s: nat, t: nat, maxDepth: nat, p: nat)
    requires s < |g| && maxDepth >= 1 && p < |g| && p in g[s]
    ensures var around, through := Dist(g, {s}, p, t, maxDepth - 1), Dist(g, {}, p, t, maxDepth - 1);
            var f, r := ForwardEvidence(g, s, t, maxDepth), ReverseEvidence(g, s, t, maxDepth);
            && Score(f, p) == (if around.Some? then Pow(DECAY, around.value) else 0.0)
            && Score(r, p) == (if through.Some? then Pow(DECAY, through.value) else 0.0)
            && (p in r <==> through.Some?)
  {
    NoWalkFromSource(g, s, t, maxDepth - 1);
    hide Dist, Pow;
  }

  /** Walks around the source are walks. */
  lemma ThroughIsShorter(g: Rows, s: nat, t: nat, p: nat, bound: nat)
    ensures var around, through := Dist(g, {s}, p, t, bound), Dist(g, {}, p, t, bound);
            around.Some? ==> through.Some? && through.value <= around.value
  {
    DistMeaning(g, {s}, p, t, bound);
    DistMeaning(g, {}, p, t, bound);
    var around := Dist(g, {s}, p, t, bound);
    hide Dist, Hops;
    if around.Some? { HopsMonotone(g, {s}, g, {}, p, t, around.value); }
  }

  /** A shortcut gives reverse search strictly better evidence. */
  lemma ShortcutScores(g: Rows, s: nat, t: nat, maxDepth: nat, p: nat)
    requires s < |g| && maxDepth >= 1 && Shortcut(g, s, t, maxDepth, p)
    ensures var f, r := ForwardEvidence(g, s, t, maxDepth), ReverseEvidence(g, s, t, maxDepth);
            p in r && Score(f, p) < Score(r, p)
  {
    var around, through := Dist(g, {s}, p, t, maxDepth - 1), Dist(g, {}, p, t, maxDepth - 1);
    assert p < |g| && p in g[s] && around != through;
    hide *;
    GroupScores(g, s, t, maxDepth, p);
    ThroughIsShorter(g, s, t, p, maxDepth - 1);
    if around.Some? {
      PowStrict(DECAY, through.value, around.value);
    } else {
      PowRange(DECAY, through.value);
    }
  }

  /** Without shortcuts both searches gather the same evidence. */
  lemma SameEvidence(g: Rows, s: nat, t: nat, maxDepth: nat)
    requires s < |g| && maxDepth >= 1 && forall p: nat :: !Shortcut(g, s, t, maxDepth, p)
    ensures ForwardEvidence(g, s, t, maxDepth) == ReverseEvidence(g, s, t, maxDepth)
  {
    var f, r := ForwardEvidence(g, s, t, maxDepth), ReverseEvidence(g, s, t, maxDepth);
    NoWalkFromSource(g, s, t, maxDepth - 1);
    forall p: nat ensures p in f <==> p in r
                  ensures p in f ==> f[p] == r[p] {
      assert !Shortcut(g, s, t, maxDepth, p);
    }
    assert f.Keys == r.Keys;
  }

  /** At every depth and on every graph the two searches agree on a pair exactly when the source trusts the target
      directly, or nobody it trusts has a shortcut through the source. */
  lemma AgreementEverywhere(g: Rows, s: nat, t: nat, maxDepth: nat)
    requires Closed(g) && s < |g| && t < |g| && s != t && maxDepth >= 1
    ensures Agree(g, s, t, maxDepth) <==> t in g[s] || forall p: nat :: !Shortcut(g, s, t, maxDepth, p)
  {
    hide *;
    AgreeOnEvidence(g, s, t, maxDepth);
    var f, r := ForwardEvidence(g, s, t, maxDepth), ReverseEvidence(g, s, t, maxDepth);
    if t in g[s] {
      DirectTrust(g, s, t, maxDepth);
      MissCertain(f, t, |g|);
      MissCertain(r, t, |g|);
    } else if p: nat :| Shortcut(g, s, t, maxDepth, p) {
      ShortcutTells(g, s, t, maxDepth, p);
    } else {
      SameEvidence(g, s, t, maxDepth);
    }
  }

  lemma ShortcutTells(g: Rows, s: nat, t: nat, maxDepth: nat, p: nat)
    requires Closed(g) && s < |g| && t < |g| && maxDepth >= 1 && t !in g[s] && Shortcut(g, s, t, maxDepth, p)
    ensures var f, r := ForwardEvidence(g, s, t, maxDepth), ReverseEvidence(g, s, t, maxDepth);
            r != map[] && Miss(r, |g|) < Miss(f, |g|)
  {
    assert p < |g|;
    hide *;
    var f, r := ForwardEvidence(g, s, t, maxDepth), ReverseEvidence(g, s, t, maxDepth);
    ShortcutScores(g, s, t, maxDepth, p);
    EvidenceIsProbable(g, s, t, maxDepth);
    NoCertainty(g, s, t, maxDepth);
    forall q: nat ensures Score(f, q) <= Score(r, q) { EvidenceGrows(g, s, t, maxDepth, q); }
    MissStrict(f, r, p, |g|);
  }

  // ----- depth three -----

  /** `s` trusts itself, does not trust `t` directly, and reaches `t` in two hops. */
  ghost predicate SelfTrustCounts(g: Rows, s: nat, t: nat)
    requires s < |g|
  {
    s in g[s] && t !in g[s] && exists x :: x in g[s] && x < |g| && t in g[x]
  }

  /** Without a direct edge, at most two hops from a first hop never lead back through the source. */
  lemma ShortWalksAvoidSource(g: Rows, s: nat, t: nat, p: nat, k: nat)
    requires Closed(g) && s < |g| && s != t && t !in g[s] && p != s && k <= 2
    ensures Hops(g, {s}, p, t, k) <==> Hops(g, {}, p, t, k)
  {
    if Hops(g, {s}, p, t, k) { HopsMonotone(g, {s}, g, {}, p, t, k); }
    if Hops(g, {}, p, t, k) {
      var w :| WalkBetween(g, {}, p, t, w) && |w| == k + 1;
      if k == 2 { assert w[2] in g[w[1]]; }
      assert WalkBetween(g, {s}, p, t, w);
    }
  }

  lemma SameDistance(g: Rows, s: nat, t: nat, p: nat, bound: nat)
    requires Closed(g) && s < |g| && s != t && t !in g[s] && p != s && bound <= 2
    ensures Dist(g, {s}, p, t, bound) == Dist(g, {}, p, t, bound)
  {
    forall k: nat | k <= bound ensures Hops(g, {s}, p, t, k) <==> Hops(g, {}, p, t, k) {
      ShortWalksAvoidSource(g, s, t, p, k);
    }
    DistMeaning(g, {s}, p, t, bound);
    DistMeaning(g, {}, p, t, bound);
  }

  /** Up to depth three only a self-loop can be a shortcut, and it is one exactly when two hops lead to `t`. */
  lemma OnlySelfShortcut(g: Rows, s: nat, t: nat, maxDepth: nat, p: nat)
    requires Closed(g) && s < |g| && t < |g| && s != t && 1 <= maxDepth <= 3 && t !in g[s]
    ensures Shortcut(g, s, t, maxDepth, p) <==> p == s && maxDepth == 3 && SelfTrustCounts(g, s, t)
  {
    if p != s {
      SameDistance(g, s, t, p, maxDepth - 1);
    } else {
      NoWalkFromSource(g, s, t, maxDepth - 1);
      SourceReaches(g, s, t, maxDepth - 1);
    }
  }

  lemma SourceReaches(g: Rows, s: nat, t: nat, bound: nat)
    requires Closed(g) && s < |g| && t < |g| && s != t && bound <= 2 && t !in g[s]
    ensures Dist(g, {}, s, t, bound).Some? <==> bound == 2 && exists x :: x in g[s] && x < |g| && t in g[x]
  {
    DistMeaning(g, {}, s, t, bound);
    HopsZero(g, {}, s, t);
    HopsOne(g, {}, s, t);
    if Hops(g, {}, s, t, 2) {
      var w := HopsUncons(g, {}, s, t, 1);
      HopsOne(g, {}, w, t);
      assert w in g[s] && t in g[w];
    }
    if x :| x in g[s] && x < |g| && t in g[x] {
      HopsOne(g, {}, x, t);
      HopsCons(g, {}, s, x, t, 1);
    }
  }

  /** With at most three hops the two searches agree on a pair exactly when no self-loop of the source adds
      a group of its own. */
  lemma AgreementExact(g: Rows, s: nat, t: nat, maxDepth: nat)
    requires Closed(g) && s < |g| && t < |g| && s != t && 1 <= maxDepth <= 3
    ensures Agree(g, s, t, maxDepth) <==> !(maxDepth == 3 && SelfTrustCounts(g, s, t))
  {
    assert t in g[s] ==> !SelfTrustCounts(g, s, t);
    hide *;
    AgreementEverywhere(g, s, t, maxDepth);
    if t !in g[s] {
      forall p: nat ensures Shortcut(g, s, t, maxDepth, p) <==> p == s && maxDepth == 3 && SelfTrustCounts(g, s, t) {
        OnlySelfShortcut(g, s, t, maxDepth, p);
      }
      assert Shortcut(g, s, t, maxDepth, s) <==> maxDepth == 3 && SelfTrustCounts(g, s, t);
    }
  }

  ghost predicate LoopFree(g: Rows) {
    forall i :: 0 <= i < |g| ==> i !in g[i]
  }

  /** The promise of the trust graph: on self-loop-free graphs, at the production depth, both directions give
      identical scores for every pair. */
  lemma AgreementAtMaxDepth(g: Rows, s: nat, t: nat)
    requires Closed(g) && LoopFree(g) && s < |g| && t < |g| && s != t
    ensures Agree(g, s, t, MAX_DEPTH)
  {
    AgreementExact(g, s, t, MAX_DEPTH);
  }

  /** 0 trusts itself and 1, and 1 trusts 2. */
  const SELF_TRUST: Rows := [[0, 1], [2], []]

  /** At the production depth the two searches disagree on a graph of three users. */
  lemma DisagreementAtMaxDepth()
    ensures Closed(SELF_TRUST) && !Agree(SELF_TRUST, 0, 2, MAX_DEPTH)
  {
    assert |SELF_TRUST| == 3 && Closed(SELF_TRUST);
    assert SelfTrustCounts(SELF_TRUST, 0, 2) by {
      assert 1 in SELF_TRUST[0] && 2 in SELF_TRUST[1];
    }
    hide *;
    AgreementExact(SELF_TRUST, 0, 2, MAX_DEPTH);
  }

  // ----- depth four and beyond -----

  /** 0 -> 1 -> 0 -> 2 -> 3: from 1, the only way to 3 leads back through 0. */
  const BOUNCE: Rows := [[1, 2], [0], [3], []]

  lemma BounceStuck(k: nat)
    ensures !Hops(BOUNCE, {0}, 1, 3, k)
  {
    forall p | p != [] && p[0] == 1 && p[|p| - 1] == 3 ensures !IsWalk(BOUNCE, {0}, p) {
      assert |p| > 1;
      assert BOUNCE[1] == [0];
      if p[1] in BOUNCE[p[0]] { assert p[1] == 0; }
    }
  }

  lemma BounceShortcut(maxDepth: nat)
    requires maxDepth >= 4
    ensures |BOUNCE| == 4 && 3 !in BOUNCE[0] && Shortcut(BOUNCE, 0, 3, maxDepth, 1)
  {
    assert WalkBetween(BOUNCE, {}, 1, 3, [1, 0, 2, 3]);
    assert Hops(BOUNCE, {}, 1, 3, 3);
    DistMeaning(BOUNCE, {}, 1, 3, maxDepth - 1);
    DistMeaning(BOUNCE, {0}, 1, 3, maxDepth - 1);
    forall k: nat ensures !Hops(BOUNCE, {0}, 1, 3, k) { BounceStuck(k); }
  }

  lemma BounceClosed()
    ensures Closed(BOUNCE) && LoopFree(BOUNCE)
  {}

  /** From depth four on, agreement fails on a graph without self-loops. */
  lemma DisagreementFromDepthFour(maxDepth: nat)
    requires maxDepth >= 4
    ensures Closed(BOUNCE) && LoopFree(BOUNCE)
    ensures !Agree(BOUNCE, 0, 3, maxDepth)
  {
    hide *;
    BounceClosed();
    BounceShortcut(maxDepth);
    AgreementEverywhere(BOUNCE, 0, 3, maxDepth);
  }

  /** Every pair of distinct users of every self-loop-free graph gets one score, whichever way it is computed. */
  ghost predicate DirectionFree(maxDepth: nat)
    requires maxDepth >= 1
  {
    forall g: Rows, s: nat, t: nat | Closed(g) && LoopFree(g) && s < |g| && t < |g| && s != t ::
      Agree(g, s, t, maxDepth)
  }

  lemma DepthThreeIsTheLimit(maxDepth: nat)
    requires maxDepth >= 1
    ensures DirectionFree(maxDepth) <==> maxDepth <= 3
  {
    if maxDepth <= 3 {
      forall g: Rows, s: nat, t: nat | Closed(g) && LoopFree(g) && s < |g| && t < |g| && s != t
        ensures Agree(g, s, t, maxDepth)
      {
        AgreementExact(g, s, t, maxDepth);
      }
    } else {
      DisagreementFromDepthFour(maxDepth);
      BounceClosed();
    }
  }
}
