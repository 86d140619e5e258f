/** Bottleneck-grouped scores: best path per group, independent evidence across groups. */
module Scores {
  import opened Reals

  /** Group key to the best score recorded under it. */
  type Groups = map<nat, real>

  // ----- the score of a set of groups -----

  function Score(m: Groups, k: nat): real {
    if k in m then m[k] else 0.0
  }

  function Times(a: real, b: real): real {
    a * b
  }

  /** The chance that every group below `n` fails. */
  function Miss(m: Groups, n: nat): real {
    if n == 0 then 1.0 else Times(Miss(m, n - 1), 1.0 - Score(m, n - 1))
  }

  function Combined(m: Groups, n: nat): real {
    1.0 - Miss(m, n)
  }

  ghost predicate Probabilities(m: Groups) {
    forall k :: k in m ==> 0.0 <= m[k] <= 1.0
  }

  lemma {:induction false} MissCong(a: Groups, b: Groups, n: nat)
    requires forall k: nat :: k < n ==> Score(a, k) == Score(b, k)
    ensures Miss(a, n) == Miss(b, n)
  {
    if n > 0 { MissCong(a, b, n - 1); }
  }

  lemma TimesSwap(p: real, u: real, v: real)
    ensures Times(Times(p, u), v) == Times(Times(p, v), u)
    ensures Times(p, 1.0) == p
  {}

  lemma {:induction false} MissInsert(m: Groups, k: nat, x: real, n: nat)
    requires k !in m && k < n
    ensures Miss(m[k := x], n) == Times(Miss(m, n), 1.0 - x)
  {
    hide Times;
    TimesSwap(Miss(m, n - 1), 1.0 - x, 1.0 - Score(m, n - 1));
    if k == n - 1 {
      MissCong(m[k := x], m, n - 1);
    } else {
      MissInsert(m, k, x, n - 1);
    }
  }

  lemma TimesMonotone(a: real, b: real, c: real, d: real)
    requires 0.0 <= a <= b && 0.0 <= c <= d
    ensures 0.0 <= Times(a, c) <= Times(b, d)
  {
    MulMonotone(a, b, c, d);
  }

  lemma TimesPositive(a: real, b: real)
    requires a > 0.0 && b > 0.0
    ensures Times(a, b) > 0.0
  {
    MulPositive(a, b);
  }

  lemma TimesLess(a: real, b: real, c: real)
    requires a < b && c > 0.0
    ensures Times(a, c) < Times(b, c) && Times(c, a) < Times(c, b)
  {
    MulLess(a, b, c);
  }

  /** A product of non-negative factors is positive only if both are. */
  lemma TimesFactors(a: real, b: real)
    requires a >= 0.0 && b >= 0.0 && Times(a, b) > 0.0
    ensures a > 0.0 && b > 0.0
  {}

  lemma TimesShrinks(a: real, c: real)
    requires 0.0 <= a <= 1.0 && 0.0 <= c <= 1.0
    ensures 0.0 <= Times(a, c) <= a && Times(a, c) <= c
  {
    MulMonotone(0.0, a, 0.0, 1.0 - c);
    MulMonotone(0.0, 1.0 - a, 0.0, c);
    MulMonotone(0.0, a, 0.0, c);
    assert a * (1.0 - c) == a - a * c && (1.0 - a) * c == c - a * c;
  }

  lemma {:induction false} MissRange(m: Groups, n: nat)
    requires Probabilities(m)
    ensures 0.0 <= Miss(m, n) <= 1.0
  {
    hide Times;
    if n > 0 {
      MissRange(m, n - 1);
      TimesShrinks(Miss(m, n - 1), 1.0 - Score(m, n - 1));
    }
  }

  /** More or better evidence never lowers the combined score. */
  lemma {:induction false} MissAntitone(a: Groups, b: Groups, n: nat)
    requires Probabilities(a) && Probabilities(b)
    requires forall k: nat :: k < n ==> Score(a, k) <= Score(b, k)
    ensures Miss(b, n) <= Miss(a, n)
  {
    hide Times;
    if n > 0 {
      MissAntitone(a, b, n - 1);
      MissRange(b, n - 1);
      assert Score(a, n - 1) <= Score(b, n - 1) <= 1.0;
      TimesMonotone(Miss(b, n - 1), Miss(a, n - 1), 1.0 - Score(b, n - 1), 1.0 - Score(a, n - 1));
    }
  }

  /** Strictly better evidence in one group raises the combined score, unless it was certain already. */
  lemma {:induction false} MissStrict(a: Groups, b: Groups, k: nat, n: nat)
    requires Probabilities(a) && Probabilities(b) && Miss(a, n) > 0.0
    requires k < n && Score(a, k) < Score(b, k)
    requires forall j: nat :: j < n ==> Score(a, j) <= Score(b, j)
    ensures Miss(b, n) < Miss(a, n)
  {
    hide Times;
    var ma, mb, fa, fb := Miss(a, n - 1), Miss(b, n - 1), 1.0 - Score(a, n - 1), 1.0 - Score(b, n - 1);
    assert Score(a, n - 1) <= Score(b, n - 1) <= 1.0;
    MissRange(a, n - 1);
    MissRange(b, n - 1);
    MissAntitone(a, b, n - 1);
    TimesFactors(ma, fa);
    if k < n - 1 {
      MissStrict(a, b, k, n - 1);
      TimesMonotone(mb, mb, fb, fa);
      TimesLess(mb, ma, fa);
    } else {
      TimesMonotone(mb, ma, fb, fb);
      TimesLess(fb, fa, ma);
    }
  }

  /** One certain group settles the matter. */
  lemma {:induction false} MissCertain(m: Groups, k: nat, n: nat)
    requires k < n && Score(m, k) == 1.0
    ensures Miss(m, n) == 0.0
  {
    if k < n - 1 { MissCertain(m, k, n - 1); }
  }

  /** Without a certain group some doubt remains. */
  lemma {:induction false} MissPositive(m: Groups, n: nat)
    requires forall k: nat :: k < n ==> Score(m, k) < 1.0
    ensures Miss(m, n) > 0.0
  {
    hide Times;
    if n > 0 {
      MissPositive(m, n - 1);
      assert Score(m, n - 1) < 1.0;
      TimesPositive(Miss(m, n - 1), 1.0 - Score(m, n - 1));
    }
  }

  /** The combined score is at least every group's own. */
  lemma {:induction false} MissBelowEach(m: Groups, k: nat, n: nat)
    requires Probabilities(m) && k < n
    ensures Miss(m, n) <= 1.0 - Score(m, k)
  {
    hide Times;
    MissRange(m, n - 1);
    TimesShrinks(Miss(m, n - 1), 1.0 - Score(m, n - 1));
    if k < n - 1 { MissBelowEach(m, k, n - 1); }
  }

  /** With a single group, the combined score is that group's score. */
  lemma {:induction false} MissSingle(m: Groups, k: nat, n: nat)
    requires forall j: nat :: j < n && j != k ==> Score(m, j) == 0.0
    ensures Miss(m, n) == if k < n then 1.0 - Score(m, k) else 1.0
  {
    if n > 0 { MissSingle(m, k, n - 1); }
  }

  // ----- the accumulator -----

  ghost predicate DistinctKeys(entries: seq<(nat, real)>) {
    forall i, j :: 0 <= i < j < |entries| ==> entries[i].0 != entries[j].0
  }

  ghost function AsGroups(entries: seq<(nat, real)>): Groups {
    if entries == [] then map[]
    else AsGroups(entries[..|entries| - 1])[entries[|entries| - 1].0 := entries[|entries| - 1].1]
  }

  lemma {:induction false} KeysRecorded(entries: seq<(nat, real)>, k: nat)
    ensures k in AsGroups(entries) <==> exists i :: 0 <= i < |entries| && entries[i].0 == k
  {
    if entries != [] {
      var init := entries[..|entries| - 1];
      KeysRecorded(init, k);
      assert forall i :: 0 <= i < |init| ==> init[i] == entries[i];
      if exists i :: 0 <= i < |entries| && entries[i].0 == k {
        var i :| 0 <= i < |entries| && entries[i].0 == k;
        assert i < |init| ==> init[i].0 == k;
      }
    }
  }

  lemma {:induction false} EntryRecorded(entries: seq<(nat, real)>, i: nat)
    requires DistinctKeys(entries) && i < |entries|
    ensures entries[i].0 in AsGroups(entries) && AsGroups(entries)[entries[i].0] == entries[i].1
  {
    if i < |entries| - 1 { EntryRecorded(entries[..|entries| - 1], i); }
  }

  lemma {:induction false} EntryReplaced(entries: seq<(nat, real)>, i: nat, x: real)
    requires DistinctKeys(entries) && i < |entries|
    ensures AsGroups(entries[i := (entries[i].0, x)]) == AsGroups(entries)[entries[i].0 := x]
  {
    var last := |entries| - 1;
    var after := entries[i := (entries[i].0, x)];
    if i < last {
      EntryReplaced(entries[..last], i, x);
      assert after[..last] == entries[..last][i := (entries[i].0, x)];
    } else {
      assert after[..last] == entries[..last];
    }
  }

  lemma EntryAppended(entries: seq<(nat, real)>, k: nat, x: real)
    ensures AsGroups(entries + [(k, x)]) == AsGroups(entries)[k := x]
  {
    assert (entries + [(k, x)])[..|entries|] == entries;
  }

  /** The groups with one more path recorded under `group`: within a group the better score stays. */
  function Recorded(m: Groups, group: nat, score: real): Groups {
    if group in m && score <= m[group] then m else m[group := score]
  }

  /** Per-target accumulator. */
  class PathGroups {
    var groups: seq<(nat, real)>

    ghost predicate Valid()
      reads this
    {
      DistinctKeys(groups)
    }

    ghost function Best(): Groups
      reads this
    {
      AsGroups(groups)
    }

    constructor ()
      ensures Valid() && Best() == map[]
    {
      groups := [];
    }

    method Add(group: nat, score: real)
      requires Valid()
      modifies this
      ensures Valid() && Best() == Recorded(old(Best()), group, score)
    {
      hide AsGroups;
      KeysRecorded(groups, group);
      for i := 0 to |groups|
        invariant groups == old(groups)
        invariant forall j :: 0 <= j < i ==> groups[j].0 != group
      {
        if groups[i].0 == group {
          EntryRecorded(groups, i);
          if score > groups[i].1 {
            EntryReplaced(groups, i, score);
            groups := groups[i := (groups[i].0, score)];
          }
          return;
        }
      }
      EntryAppended(groups, group, score);
      groups := groups + [(group, score)];
    }

    method CombinedScore(ghost n: nat) returns (r: real)
      requires Valid() && forall k :: k in Best() ==> k < n
      ensures r == Combined(Best(), n)
    {
      MissEmpty(n);
      if groups == [] {
        return 0.0;
      }
      hide Times, Miss;
      var product := 1.0;
      for i := 0 to |groups|
        invariant product == Miss(AsGroups(groups[..i]), n)
      {
        EntryRecorded(groups, i);
        assert groups[i].0 in Best();
        assert groups[..i + 1][..i] == groups[..i];
        KeysRecorded(groups[..i], groups[i].0);
        MissInsert(AsGroups(groups[..i]), groups[i].0, groups[i].1, n);
        product := Times(product, 1.0 - groups[i].1);
      }
      assert groups[..|groups|] == groups;
      r := 1.0 - product;
    }
  }

  lemma {:induction false} MissEmpty(n: nat)
    ensures Miss(map[], n) == 1.0
  {
    if n > 0 { MissEmpty(n - 1); }
  }

  // ----- one accumulator per target -----

  type TargetGroups = map<nat, PathGroups>

  ghost function Accumulators(tg: TargetGroups): set<PathGroups> {
    set t | t in tg :: tg[t]
  }

  /** No two targets share an accumulator. */
  ghost predicate Separate(tg: TargetGroups)
    reads Accumulators(tg)
  {
    && (forall t :: t in tg ==> tg[t].Valid())
    && (forall t, u :: t in tg && u in tg && t != u ==> tg[t] != tg[u])
  }

  ghost function Contents(tg: TargetGroups): map<nat, Groups>
    reads Accumulators(tg)
  {
    map t | t in tg :: tg[t].Best()
  }

  function At(m: map<nat, Groups>, t: nat): Groups {
    if t in m then m[t] else map[]
  }

  /** Look the target up, creating its accumulator on first sight, and record the path. */
  method Record(tg: TargetGroups, t: nat, group: nat, score: real) returns (r: TargetGroups)
    requires Separate(tg)
    modifies Accumulators(tg)
    ensures Separate(r) && fresh(Accumulators(r) - Accumulators(tg))
    ensures Contents(r) == old(Contents(tg))[t := Recorded(At(old(Contents(tg)), t), group, score)]
  {
    r := OrInsert(tg, t);
    hide AsGroups, DistinctKeys, Recorded;
    AddAt(r, t, group, score);
  }

  /** Record a path with an existing accumulator. */
  method AddAt(tg: TargetGroups, t: nat, group: nat, score: real)
    requires Separate(tg) && t in tg
    modifies Accumulators(tg)
    ensures Separate(tg)
    ensures Contents(tg) == old(Contents(tg))[t := Recorded(old(Contents(tg))[t], group, score)]
  {
    hide AsGroups, DistinctKeys, Recorded;
    tg[t].Add(group, score);
  }

  /** The accumulators with one for `t`, empty if it is new. */
  method OrInsert(tg: TargetGroups, t: nat) returns (r: TargetGroups)
    requires Separate(tg)
    ensures Separate(r) && fresh(Accumulators(r) - Accumulators(tg))
    ensures t in r && Contents(r) == Contents(tg)[t := At(Contents(tg), t)]
  {
    r := tg;
    if t !in r {
      var g := new PathGroups();
      r := r[t := g];
    }
  }

  ghost function CombinedScores(m: map<nat, Groups>, n: nat): map<nat, real> {
    map t | t in m :: Combined(m[t], n)
  }

  ghost predicate KeysBelow(m: map<nat, Groups>, n: nat) {
    forall t, k :: t in m && k in m[t] ==> k < n
  }

  /** Turn every accumulator into its combined score. */
  method CombineAll(tg: TargetGroups, ghost n: nat) returns (results: map<nat, real>)
    requires Separate(tg) && KeysBelow(Contents(tg), n)
    ensures results == CombinedScores(Contents(tg), n)
  {
    results := map[];
    var rest := tg.Keys;
    while rest != {}
      invariant rest <= tg.Keys && results.Keys == tg.Keys - rest
      invariant forall t :: t in results ==> results[t] == Combined(Contents(tg)[t], n)
    {
      var t :| t in rest;
      assert forall k :: k in tg[t].Best() ==> k in Contents(tg)[t];
      var score := tg[t].CombinedScore(n);
      results := results[t := score];
      rest := rest - {t};
    }
  }
}
