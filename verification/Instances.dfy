/** Concrete runs, with their scores written out. */
module Instances {
  import opened Csr
  import opened Walks
  import opened Bfs
  import opened Reals
  import opened Scores
  import opened Forward
  import opened Meaning
  import opened Distrust
  import opened FirstFound

  /** A target with a single group scores what that group scores. */
  lemma SingleGroup(g: Rows, source: nat, distrusts: set<nat>, f: nat, t: nat)
    requires Closed(g) && source < |g| && t < |g| && t !in distrusts && f < |g|
    requires GroupsFor(g, source, distrusts, 3, t).Keys == {f}
    ensures var scores := ForwardScores(g, source, distrusts, 3);
            t in scores && scores[t] == GroupsFor(g, source, distrusts, 3, t)[f]
  {
    var m := GroupsFor(g, source, distrusts, 3, t);
    assert f in m;
    MissSingle(m, f, |g|);
  }

  /** 0 -> 1 -> {2, 3}. */
  const FORK: Rows := [[1], [2, 3], [], []]

  /** Viewer 0 distrusts 2 and 3, both trusted by 1: two penalties for 1. */
  lemma TwoPenalties()
    ensures Closed(FORK)
    ensures var scores := ForwardScores(FORK, 0, {2, 3}, 3);
            1 in scores && scores[1] == 0.5625
  {
    var g, D := FORK, {2, 3};
    assert Closed(g) && FirstHop(g, 0, 1) && FirstHops(g, 0) == {1};
    HopsZero(g, {0}, 1, 1);
    DistMeaning(g, {0}, 1, 1, 2);
    forall f: nat ensures f in GroupsFor(g, 0, D, 3, 1) <==> f == 1 { Reported(g, 0, D, 3, f, 1); }
    NearScore(g, 0, D, 1, 1);
    OneHopScore(g, D, 1, 1);
    TwoDistrusted(D);
    hide GroupsFor, ForwardScores, PathScore;
    SingleGroup(g, 0, D, 1, 1);
  }

  lemma TwoDistrusted(D: set<nat>)
    requires D == {2, 3}
    ensures Reliability([2, 3], D) == 0.5625
  {
    ReliabilitySteps([2], 3, D);
    ReliabilitySteps([], 2, D);
    assert [2] + [3] == [2, 3] && [] + [2] == [2];
  }

  /** In the diamond the penalised middleman, listed first, leaves 0.3675; listed second, it leaves 0.49. */
  lemma DiamondScores()
    ensures Closed(DIAMOND) && Closed(DIAMOND_SWAPPED)
    ensures 1 in GroupsFor(DIAMOND, 0, {5}, 3, 4) && GroupsFor(DIAMOND, 0, {5}, 3, 4)[1] == 0.3675
    ensures 1 in GroupsFor(DIAMOND_SWAPPED, 0, {5}, 3, 4) && GroupsFor(DIAMOND_SWAPPED, 0, {5}, 3, 4)[1] == 0.49
  {
    hide *;
    DiamondReported(DIAMOND);
    DiamondReported(DIAMOND_SWAPPED);
    DiamondReliability();
    DiamondRows();
    ViaFirst(DIAMOND, 2);
    ViaFirst(DIAMOND_SWAPPED, 3);
  }

  lemma DiamondRows()
    ensures |DIAMOND| == 6 && DIAMOND[1] == [2, 3] && DIAMOND[2] == [4, 5] && DIAMOND[4] == []
    ensures |DIAMOND_SWAPPED| == 6 && DIAMOND_SWAPPED[1] == [3, 2] && DIAMOND_SWAPPED[3] == [4]
    ensures DIAMOND_SWAPPED[4] == []
  {}

  lemma ViaFirst(g: Rows, x: nat)
    requires Closed(g) && |g| == 6 && FirstHop(g, 0, 1) && 1 in GroupsFor(g, 0, {5}, 3, 4)
    requires 0 < x < 4 && g[1] != [] && g[1][0] == x && 4 !in g[1] && 4 in g[x]
    requires Reliability(g[1], {5}) == 1.0 && Reliability(g[4], {5}) == 1.0
    ensures GroupsFor(g, 0, {5}, 3, 4)[1] == Reliability(g[x], {5}) * 0.49
  {
    assert Via(g, 0, g[1][0], 4);
    hide GroupsFor, PathScore, Reliability, Closed, FirstHop;
    var m := FarFinder(g, 0, {5}, 1, 4);
    assert m == 0;
    hide FirstVia, Via;
    TwoHopScore(g, {5}, 1, x, 4);
    var r := Reliability(g[x], {5});
    assert 1.0 * DECAY * r * DECAY * 1.0 == r * 0.49;
  }

  lemma DiamondReliability()
    ensures Reliability([], {5}) == 1.0 && Reliability([4], {5}) == 1.0 && Reliability([4, 5], {5}) == 0.75
    ensures Reliability([2, 3], {5}) == 1.0 && Reliability([3, 2], {5}) == 1.0
  {
    ReliabilitySteps([], 4, {5});
    ReliabilitySteps([4], 5, {5});
    ReliabilitySteps([], 2, {5});
    ReliabilitySteps([2], 3, {5});
    ReliabilitySteps([], 3, {5});
    ReliabilitySteps([3], 2, {5});
    assert [4] + [5] == [4, 5] && [2] + [3] == [2, 3] && [3] + [2] == [3, 2];
    assert [] + [4] == [4] && [] + [2] == [2] && [] + [3] == [3];
  }

  /** 0 -> {1, 2} -> 3. */
  const TWO_WAYS: Rows := [[1, 2], [3], [3], []]

  /** Two independent friends of friends: 1 - (1 - 0.7)(1 - 0.7) = 0.91. */
  lemma TwoIndependentGroups()
    ensures Closed(TWO_WAYS)
    ensures var scores := ForwardScores(TWO_WAYS, 0, {}, 3);
            3 in scores && scores[3] == 0.91
  {
    var e := ForwardEvidence(TWO_WAYS, 0, 3, 3);
    TwoWaysEvidence();
    hide *;
    ForwardMeaning(TWO_WAYS, 0, 3, 3);
    MissOfTwo(e);
    CombinedTarget(e);
  }

  lemma CombinedTarget(e: Groups)
    requires Closed(TWO_WAYS) && |TWO_WAYS| == 4 && e != map[] && GroupsFor(TWO_WAYS, 0, {}, 3, 3) == e
    ensures var scores := ForwardScores(TWO_WAYS, 0, {}, 3);
            3 in scores && scores[3] == 1.0 - Miss(e, 4)
  {
    hide GroupsFor, Closed, Miss;
  }

  lemma TwoWaysEvidence()
    ensures Closed(TWO_WAYS) && |TWO_WAYS| == 4
    ensures var e := ForwardEvidence(TWO_WAYS, 0, 3, 3);
            && e != map[] && Score(e, 0) == 0.0 && Score(e, 1) == 0.7 && Score(e, 2) == 0.7 && Score(e, 3) == 0.0
  {
    var g := TWO_WAYS;
    assert FirstHop(g, 0, 1) && FirstHop(g, 0, 2) && !FirstHop(g, 0, 3);
    OneHopAway(1);
    OneHopAway(2);
    assert Pow(DECAY, 1) == DECAY * Pow(DECAY, 0);
    assert 1 in ForwardEvidence(g, 0, 3, 3);
  }

  lemma MissOfTwo(e: Groups)
    requires Score(e, 0) == 0.0 && Score(e, 1) == 0.7 && Score(e, 2) == 0.7 && Score(e, 3) == 0.0
    ensures Miss(e, 4) == 0.09
  {
    hide Score;
    assert Miss(e, 0) == 1.0;
    assert Miss(e, 1) == 1.0;
    assert Miss(e, 2) == 0.3;
    assert Miss(e, 3) == 0.09;
  }

  lemma OneHopAway(f: nat)
    requires f == 1 || f == 2
    ensures |TWO_WAYS| == 4 && Dist(TWO_WAYS, {0}, f, 3, 2).Some? && Dist(TWO_WAYS, {0}, f, 3, 2).value == 1
  {
    HopsZero(TWO_WAYS, {0}, f, 3);
    HopsOne(TWO_WAYS, {0}, f, 3);
    DistMeaning(TWO_WAYS, {0}, f, 3, 2);
  }
}
