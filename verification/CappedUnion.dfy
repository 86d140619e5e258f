/** Capping each local reader's visible set, and what the cap does to the stored frontier. */
module CappedUnion {
  import opened Csr
  import opened Transpose
  import opened Reals
  import opened Forward
  import opened Reverse
  import opened Frontier
  import opened Induced
  import opened Sorting

  // ----- ranking -----

  function ScoreIn(fwd: map<nat, real>, a: nat): real {
    if a in fwd then fwd[a] else 0.0
  }

  /** Trusted more by the reader, or trusted equally and older. */
  predicate RanksBefore(fwd: map<nat, real>, a: nat, b: nat) {
    ScoreIn(fwd, a) > ScoreIn(fwd, b) || (ScoreIn(fwd, a) == ScoreIn(fwd, b) && a <= b)
  }

  /** The members of `visible` that rank ahead of `v`. */
  ghost function Ahead(fwd: map<nat, real>, visible: set<nat>, v: nat): set<nat> {
    set u | u in visible && u != v && RanksBefore(fwd, u, v)
  }

  /** At most `cap` authors: all of them, or the best-ranked `cap`. */
  ghost function Admitted(fwd: map<nat, real>, visible: set<nat>, cap: nat): set<nat> {
    if |visible| <= cap then visible else set v | v in visible && |Ahead(fwd, visible, v)| < cap
  }

  lemma RankingIsTotal(fwd: map<nat, real>)
    ensures TotalOrder((a: nat, b: nat) => RanksBefore(fwd, a, b))
  {}

  /** In a ranked list the element at position `i` has exactly `i` elements ahead of it. */
  lemma PositionIsRank(fwd: map<nat, real>, ranked: seq<nat>, i: nat)
    requires Ordered((a: nat, b: nat) => RanksBefore(fwd, a, b), ranked) && NoRepeats(ranked) && i < |ranked|
    ensures |Ahead(fwd, Elements(ranked), ranked[i])| == i
  {
    var le := (a: nat, b: nat) => RanksBefore(fwd, a, b);
    var ahead := Ahead(fwd, Elements(ranked), ranked[i]);
    forall u ensures u in ahead <==> u in Elements(ranked[..i]) {
      if u in ranked[..i] {
        var j :| 0 <= j < i && ranked[j] == u;
        assert le(ranked[j], ranked[i]);
      }
      if u in ahead {
        var j :| 0 <= j < |ranked| && ranked[j] == u;
        assert ranked[..i][j] == u;
      }
    }
    assert ahead == Elements(ranked[..i]);
    SetSize(ranked[..i]);
  }

  /** Sorting and taking the first `cap` admits exactly the best-ranked `cap`. */
  lemma TopIsAdmitted(fwd: map<nat, real>, visible: seq<nat>, cap: nat)
    requires NoRepeats(visible) && cap < |visible|
    ensures var ranked := Sort((a: nat, b: nat) => RanksBefore(fwd, a, b), visible);
            Elements(ranked[..cap]) == Admitted(fwd, Elements(visible), cap)
  {
    var le := (a: nat, b: nat) => RanksBefore(fwd, a, b);
    var ranked := Sort(le, visible);
    RankingIsTotal(fwd);
    SortOrdered(le, visible);
    PermutedNoRepeats(visible, ranked);
    SetSize(visible);
    forall v ensures v in ranked <==> v in visible { SameMembers(ranked, visible, v); }
    assert Elements(ranked) == Elements(visible);
    forall v ensures v in Elements(ranked[..cap]) <==> v in Admitted(fwd, Elements(visible), cap) {
      if v in ranked {
        var i :| 0 <= i < |ranked| && ranked[i] == v;
        PositionIsRank(fwd, ranked, i);
        if i < cap {
          assert ranked[..cap][i] == v;
        }
      }
    }
  }

  /** The reader trusts `v` more than `u`, someone unknown counting as 0; or equally, and `v` has the smaller id. */
  ghost predicate Preferred(fwd: map<nat, real>, v: nat, u: nat) {
    var trustV, trustU := if v in fwd then fwd[v] else 0.0, if u in fwd then fwd[u] else 0.0;
    trustV > trustU || (trustV == trustU && v < u)
  }

  /** As many authors as the cap allows, each preferred to everyone left out. */
  ghost predicate BestOf(fwd: map<nat, real>, visible: set<nat>, cap: nat, admitted: set<nat>) {
    && admitted <= visible
    && |admitted| == (if |visible| <= cap then |visible| else cap)
    && forall v, u :: v in admitted && u in visible && u !in admitted ==> Preferred(fwd, v, u)
  }

  lemma AheadGrows(fwd: map<nat, real>, visible: set<nat>, v: nat, u: nat)
    requires v in visible && u in visible && u != v && RanksBefore(fwd, u, v)
    ensures |Ahead(fwd, visible, u)| < |Ahead(fwd, visible, v)|
  {
    var a, b := Ahead(fwd, visible, u), Ahead(fwd, visible, v);
    assert u in b && u !in a && a <= b;
    SubsetSize(a + {u}, b);
  }

  lemma AdmittedSize(fwd: map<nat, real>, visible: set<nat>, cap: nat)
    ensures |Admitted(fwd, visible, cap)| == if |visible| <= cap then |visible| else cap
  {
    if |visible| > cap {
      var list := Listed(visible);
      SetSize(list);
      TopIsAdmitted(fwd, list, cap);
      var le := (a: nat, b: nat) => RanksBefore(fwd, a, b);
      PermutedNoRepeats(list, Sort(le, list));
      hide Admitted;
      SetSize(Sort(le, list)[..cap]);
    }
  }

  /** The admitted authors are the best of the visible ones. */
  lemma AdmittedIsBest(fwd: map<nat, real>, visible: set<nat>, cap: nat)
    ensures BestOf(fwd, visible, cap, Admitted(fwd, visible, cap))
  {
    var admitted := Admitted(fwd, visible, cap);
    AdmittedSize(fwd, visible, cap);
    forall v, u | v in admitted && u in visible && u !in admitted ensures Preferred(fwd, v, u) {
      if RanksBefore(fwd, u, v) { AheadGrows(fwd, visible, v, u); }
    }
  }

  /** Only one set is the best of the visible ones. */
  lemma BestIsUnique(fwd: map<nat, real>, visible: set<nat>, cap: nat, a: set<nat>, b: set<nat>)
    requires BestOf(fwd, visible, cap, a) && BestOf(fwd, visible, cap, b)
    ensures a == b
  {
    if v :| v in a && v !in b {
      if b <= a { SubsetSize(b + {v}, a); }
      var u :| u in b && u !in a;
    } else {
      if u :| u in b && u !in a { SubsetSize(a + {u}, b); }
    }
  }

  // ----- one reader -----

  ghost function VisibleTo(d: DualCsrGraph, r: nat, localEnd: nat): set<nat>
    requires d.Valid() && r < d.numNodes
  {
    Visible(d.forward.View(), r, localEnd)
  }

  ghost function AdmittedTo(d: DualCsrGraph, r: nat, localEnd: nat, distrustSets: map<nat, set<nat>>,
                            cap: nat): set<nat>
    requires d.Valid() && r < d.numNodes
  {
    var fwd := ForwardScores(d.forward.View(), r, DistrustsOf(distrustSets, r), MAX_DEPTH);
    Admitted(fwd, VisibleTo(d, r, localEnd), cap)
  }

  /** A reader admits the remote authors it trusts most among those who can see it, up to the cap. */
  lemma AdmissionIsBest(d: DualCsrGraph, r: nat, localEnd: nat, distrustSets: map<nat, set<nat>>, cap: nat)
    requires d.Valid() && r < d.numNodes
    ensures BestOf(ForwardScores(d.forward.View(), r, DistrustsOf(distrustSets, r), MAX_DEPTH),
                   VisibleTo(d, r, localEnd), cap, AdmittedTo(d, r, localEnd, distrustSets, cap))
  {
    var fwd := ForwardScores(d.forward.View(), r, DistrustsOf(distrustSets, r), MAX_DEPTH);
    AdmittedIsBest(fwd, VisibleTo(d, r, localEnd), cap);
  }

  method VisibleList(d: DualCsrGraph, r: nat, localEnd: nat) returns (visible: seq<nat>)
    requires d.Valid() && r < d.numNodes
    ensures NoRepeats(visible) && Elements(visible) == VisibleTo(d, r, localEnd)
  {
    TransposeClosed(d.forward.View());
    var scores := ReverseBfs(r, d.reverse.View(), MAX_DEPTH);
    visible := [];
    var rest := scores.Keys;
    while rest != {}
      invariant rest <= scores.Keys && NoRepeats(visible)
      invariant forall v :: v in visible <==>
                              v in scores && v !in rest && scores[v] >= VISIBILITY_THRESHOLD && v >= localEnd
    {
      var node: nat :| node in rest;
      if scores[node] >= VISIBILITY_THRESHOLD && node >= localEnd {
        visible := visible + [node];
      }
      rest := rest - {node};
    }
  }

  method AdmittedList(d: DualCsrGraph, r: nat, localEnd: nat, distrustSets: map<nat, set<nat>>, cap: nat,
                      visible: seq<nat>)
    returns (admitted: seq<nat>, over: bool)
    requires d.Valid() && r < d.numNodes && NoRepeats(visible) && Elements(visible) == VisibleTo(d, r, localEnd)
    ensures Elements(admitted) == AdmittedTo(d, r, localEnd, distrustSets, cap)
    ensures over <==> |VisibleTo(d, r, localEnd)| > cap
    ensures BestOf(ForwardScores(d.forward.View(), r, DistrustsOf(distrustSets, r), MAX_DEPTH),
                   VisibleTo(d, r, localEnd), cap, Elements(admitted))
  {
    AdmissionIsBest(d, r, localEnd, distrustSets, cap);
    hide BestOf;
    SetSize(visible);
    over := |visible| > cap;
    if over {
      var fwd := ForwardBfs(r, d.forward.View(), distrustSets, MAX_DEPTH);
      TopIsAdmitted(fwd, visible, cap);
      admitted := Sort((a: nat, b: nat) => RanksBefore(fwd, a, b), visible)[..cap];
    } else {
      admitted := visible;
    }
  }

  // ----- all readers -----

  datatype CappedUnionStats = CappedUnionStats(
    uncappedUnionRemote: nat, cappedUnionRemote: nat, readersOverCap: nat,
    uncappedFootprint: StoredFootprint, cappedFootprint: StoredFootprint)

  /** The authors some reader below `bound` sees. */
  ghost predicate SeenBelow(d: DualCsrGraph, localEnd: nat, bound: nat, v: nat)
    requires d.Valid() && bound <= d.numNodes
  {
    exists r: nat :: r < bound && v in VisibleTo(d, r, localEnd)
  }

  ghost predicate AdmittedBelow(d: DualCsrGraph, localEnd: nat, distrustSets: map<nat, set<nat>>, cap: nat,
                                bound: nat, v: nat)
    requires d.Valid() && bound <= d.numNodes
  {
    exists r: nat :: r < bound && v in AdmittedTo(d, r, localEnd, distrustSets, cap)
  }

  ghost function OverCap(d: DualCsrGraph, localEnd: nat, cap: nat, bound: nat): set<nat>
    requires d.Valid() && bound <= d.numNodes
  {
    set r: nat | r < bound && |VisibleTo(d, r, localEnd)| > cap
  }

  method Mark(flags: array<bool>, nodes: seq<nat>)
    requires forall v :: v in nodes ==> v < flags.Length
    modifies flags
    ensures forall v :: 0 <= v < flags.Length ==> (flags[v] <==> old(flags[v]) || v in nodes)
  {
    for k := 0 to |nodes|
      invariant forall v :: 0 <= v < flags.Length ==> (flags[v] <==> old(flags[v]) || v in nodes[..k])
    {
      assert nodes[k] in nodes;
      assert nodes[..k + 1] == nodes[..k] + [nodes[k]];
      flags[nodes[k]] := true;
    }
    assert nodes[..|nodes|] == nodes;
  }

  /** The number of set flags from `from` on. */
  method CountFlags(flags: seq<bool>, from: nat) returns (count: nat)
    requires from <= |flags|
    ensures count == |SetFlags(flags, from, |flags|)|
  {
    count := 0;
    for i := from to |flags|
      invariant count == |SetFlags(flags, from, i)|
    {
      assert SetFlags(flags, from, i + 1) == SetFlags(flags, from, i) + if flags[i] then {i} else {};
      if flags[i] { count := count + 1; }
    }
  }

  ghost function SetFlags(flags: seq<bool>, from: nat, to: nat): set<nat>
    requires to <= |flags|
  {
    set v: nat | from <= v < to && flags[v]
  }

  lemma VisibleInRange(d: DualCsrGraph, r: nat, localEnd: nat, distrustSets: map<nat, set<nat>>, cap: nat)
    requires d.Valid() && r < d.numNodes
    ensures forall v :: v in VisibleTo(d, r, localEnd) ==> localEnd <= v < d.numNodes
    ensures AdmittedTo(d, r, localEnd, distrustSets, cap) <= VisibleTo(d, r, localEnd)
  {
    TransposeClosed(d.forward.View());
  }

  ghost predicate Unions(d: DualCsrGraph, localEnd: nat, distrustSets: map<nat, set<nat>>, cap: nat, bound: nat,
                         uncapped: seq<bool>, capped: seq<bool>)
    requires d.Valid() && bound <= d.numNodes
  {
    && |uncapped| == |capped| == d.numNodes
    && forall v: nat :: v < d.numNodes ==>
         && (uncapped[v] <==> SeenBelow(d, localEnd, bound, v))
         && (capped[v] <==> AdmittedBelow(d, localEnd, distrustSets, cap, bound, v))
  }

  lemma UnionStep(d: DualCsrGraph, localEnd: nat, distrustSets: map<nat, set<nat>>, cap: nat, r: nat,
                  uncapped: seq<bool>, capped: seq<bool>, uncapped': seq<bool>, capped': seq<bool>)
    requires d.Valid() && r < d.numNodes && Unions(d, localEnd, distrustSets, cap, r, uncapped, capped)
    requires |uncapped'| == |capped'| == d.numNodes
    requires forall v :: 0 <= v < d.numNodes ==> (uncapped'[v] <==> uncapped[v] || v in VisibleTo(d, r, localEnd))
    requires forall v :: 0 <= v < d.numNodes ==>
              (capped'[v] <==> capped[v] || v in AdmittedTo(d, r, localEnd, distrustSets, cap))
    ensures Unions(d, localEnd, distrustSets, cap, r + 1, uncapped', capped')
    ensures OverCap(d, localEnd, cap, r + 1)
              == OverCap(d, localEnd, cap, r) + if |VisibleTo(d, r, localEnd)| > cap then {r} else {}
  {
    hide VisibleTo, AdmittedTo;
    forall v: nat | v < d.numNodes
      ensures SeenBelow(d, localEnd, r + 1, v) <==> SeenBelow(d, localEnd, r, v) || v in VisibleTo(d, r, localEnd)
      ensures AdmittedBelow(d, localEnd, distrustSets, cap, r + 1, v) <==>
                AdmittedBelow(d, localEnd, distrustSets, cap, r, v)
                || v in AdmittedTo(d, r, localEnd, distrustSets, cap)
    {
    }
  }

  /** The admitted authors of all local readers together. */
  ghost function AdmittedUnion(d: DualCsrGraph, localEnd: nat, distrustSets: map<nat, set<nat>>, cap: nat): set<nat>
    requires d.Valid() && localEnd <= d.numNodes
  {
    set v: nat | localEnd <= v < d.numNodes && AdmittedBelow(d, localEnd, distrustSets, cap, localEnd, v)
  }

  /** The cap only removes authors, and removes none when no reader exceeds it. */
  lemma CapOnlyRemoves(d: DualCsrGraph, localEnd: nat, distrustSets: map<nat, set<nat>>, cap: nat)
    requires d.Valid() && localEnd <= d.numNodes
    ensures var g := d.forward.View();
            AdmittedUnion(d, localEnd, distrustSets, cap) <= VisibleUnion(g, localEnd)
    ensures OverCap(d, localEnd, cap, localEnd) == {} ==>
              AdmittedUnion(d, localEnd, distrustSets, cap) == VisibleUnion(d.forward.View(), localEnd)
  {
    var g := d.forward.View();
    forall v: nat | localEnd <= v < d.numNodes
      ensures AdmittedBelow(d, localEnd, distrustSets, cap, localEnd, v) ==> SomeoneSees(g, localEnd, v)
      ensures OverCap(d, localEnd, cap, localEnd) == {} && SomeoneSees(g, localEnd, v) ==>
                AdmittedBelow(d, localEnd, distrustSets, cap, localEnd, v)
    {
      if AdmittedBelow(d, localEnd, distrustSets, cap, localEnd, v) {
        var r: nat :| r < localEnd && v in AdmittedTo(d, r, localEnd, distrustSets, cap);
        VisibleInRange(d, r, localEnd, distrustSets, cap);
        assert v in Visible(g, r, localEnd);
      }
      if OverCap(d, localEnd, cap, localEnd) == {} && SomeoneSees(g, localEnd, v) {
        var r: nat :| r < localEnd && v in Visible(g, r, localEnd);
        assert r !in OverCap(d, localEnd, cap, localEnd);
        assert v in AdmittedTo(d, r, localEnd, distrustSets, cap);
      }
    }
  }

  /** Local nodes and the given remote ones. */
  ghost function RetainedFlags(n: nat, localEnd: nat, remote: set<nat>): seq<bool> {
    seq(n, v requires 0 <= v < n => v < localEnd || v in remote)
  }

  method Accumulate(d: DualCsrGraph, localEnd: nat, distrustSets: map<nat, set<nat>>, cap: nat)
    returns (uncapped: array<bool>, capped: array<bool>, readersOverCap: nat)
    requires d.Valid() && localEnd <= d.numNodes
    ensures fresh(uncapped) && fresh(capped) && uncapped != capped
    ensures Unions(d, localEnd, distrustSets, cap, localEnd, uncapped[..], capped[..])
    ensures readersOverCap == |OverCap(d, localEnd, cap, localEnd)|
  {
    var n := d.numNodes;
    uncapped := new bool[n](_ => false);
    capped := new bool[n](_ => false);
    readersOverCap := 0;
    for r := 0 to localEnd
      invariant Unions(d, localEnd, distrustSets, cap, r, uncapped[..], capped[..])
      invariant readersOverCap == |OverCap(d, localEnd, cap, r)|
    {
      var over := OneReader(d, localEnd, distrustSets, cap, r, uncapped, capped);
      if over { readersOverCap := readersOverCap + 1; }
    }
  }

  /** One iteration of the loop over readers. */
  method OneReader(d: DualCsrGraph, localEnd: nat, distrustSets: map<nat, set<nat>>, cap: nat, r: nat,
                   uncapped: array<bool>, capped: array<bool>)
    returns (over: bool)
    requires d.Valid() && r < localEnd <= d.numNodes && uncapped != capped
    requires Unions(d, localEnd, distrustSets, cap, r, uncapped[..], capped[..])
    modifies uncapped, capped
    ensures Unions(d, localEnd, distrustSets, cap, r + 1, uncapped[..], capped[..])
    ensures OverCap(d, localEnd, cap, r + 1) == OverCap(d, localEnd, cap, r) + if over then {r} else {}
    ensures r !in OverCap(d, localEnd, cap, r)
  {
    var visible := VisibleList(d, r, localEnd);
    var admitted;
    admitted, over := AdmittedList(d, r, localEnd, distrustSets, cap, visible);
    VisibleInRange(d, r, localEnd, distrustSets, cap);
    ghost var uncapped0, capped0 := uncapped[..], capped[..];
    assert |uncapped0| == |capped0| == d.numNodes;
    forall v | v in visible ensures v < d.numNodes { assert v in Elements(visible) && v in VisibleTo(d, r, localEnd); }
    forall v | v in admitted ensures v < d.numNodes {
      assert v in Elements(admitted) && v in VisibleTo(d, r, localEnd);
    }
    hide Unions, VisibleTo, AdmittedTo;
    Mark(uncapped, visible);
    Mark(capped, admitted);
    forall v ensures v in visible <==> v in VisibleTo(d, r, localEnd) {
      assert v in visible <==> v in Elements(visible);
    }
    forall v ensures v in admitted <==> v in AdmittedTo(d, r, localEnd, distrustSets, cap) {
      assert v in admitted <==> v in Elements(admitted);
    }
    UnionStep(d, localEnd, distrustSets, cap, r, uncapped0, capped0, uncapped[..], capped[..]);
  }

  /** Both unions, the number of readers over the cap, and both stored footprints. The uncapped union is the
      structural frontier of the reverse graph. */
  method MeasureCappedUnion(d: DualCsrGraph, edges: seq<Edge>, localEnd: nat, distrustSets: map<nat, set<nat>>,
                            cap: nat)
    returns (stats: CappedUnionStats)
    requires d.Valid() && localEnd <= d.numNodes <= NONE && EndpointsBelow(d.numNodes, edges)
    ensures stats.uncappedUnionRemote == |RemoteWithin(d.reverse.View(), localEnd, MAX_DEPTH)|
    ensures stats.cappedUnionRemote == |AdmittedUnion(d, localEnd, distrustSets, cap)|
    ensures stats.readersOverCap == |OverCap(d, localEnd, cap, localEnd)|
    ensures stats.uncappedFootprint
              == Footprint(edges, RetainedFlags(d.numNodes, localEnd,
                                                RemoteWithin(d.reverse.View(), localEnd, MAX_DEPTH)))
    ensures stats.cappedFootprint
              == Footprint(edges, RetainedFlags(d.numNodes, localEnd, AdmittedUnion(d, localEnd, distrustSets, cap)))
  {
    var uncapped, capped, readersOverCap := Accumulate(d, localEnd, distrustSets, cap);
    ghost var u0, c0 := uncapped[..], capped[..];
    Mark(uncapped, Upto(localEnd));
    Mark(capped, Upto(localEnd));
    forall v: nat ensures v in Upto(localEnd) <==> v < localEnd {
      if v < localEnd { assert Upto(localEnd)[v] == v; }
    }
    UnionsAreSets(d, localEnd, distrustSets, cap, u0, c0, uncapped[..], capped[..]);
    UnionIsFrontier(d.forward.View(), localEnd);
    hide *;
    var u := CountFlags(uncapped[..], localEnd);
    var c := CountFlags(capped[..], localEnd);
    var uf := InducedFootprint(edges, uncapped[..]);
    var cf := InducedFootprint(edges, capped[..]);
    stats := CappedUnionStats(u, c, readersOverCap, uf, cf);
  }

  lemma UnionsAreSets(d: DualCsrGraph, localEnd: nat, distrustSets: map<nat, set<nat>>, cap: nat,
                      u0: seq<bool>, c0: seq<bool>, uncapped: seq<bool>, capped: seq<bool>)
    requires d.Valid() && localEnd <= d.numNodes && Unions(d, localEnd, distrustSets, cap, localEnd, u0, c0)
    requires |uncapped| == |capped| == d.numNodes
    requires forall v: nat :: v < d.numNodes ==> (uncapped[v] <==> u0[v] || v < localEnd)
    requires forall v: nat :: v < d.numNodes ==> (capped[v] <==> c0[v] || v < localEnd)
    ensures SetFlags(uncapped, localEnd, d.numNodes) == VisibleUnion(d.forward.View(), localEnd)
    ensures SetFlags(capped, localEnd, d.numNodes) == AdmittedUnion(d, localEnd, distrustSets, cap)
    ensures uncapped == RetainedFlags(d.numNodes, localEnd, VisibleUnion(d.forward.View(), localEnd))
    ensures capped == RetainedFlags(d.numNodes, localEnd, AdmittedUnion(d, localEnd, distrustSets, cap))
  {
    hide Visible, AdmittedTo;
    forall v: nat | localEnd <= v < d.numNodes ensures u0[v] <==> SomeoneSees(d.forward.View(), localEnd, v) {
      assert u0[v] <==> SeenBelow(d, localEnd, localEnd, v);
      if r: nat :| r < localEnd && v in VisibleTo(d, r, localEnd) {
        assert v in Visible(d.forward.View(), r, localEnd);
      }
      if r: nat :| r < localEnd && v in Visible(d.forward.View(), r, localEnd) {
        assert v in VisibleTo(d, r, localEnd);
      }
    }
  }

  /** Capping never enlarges the store. */
  lemma CapNeverStoresMore(d: DualCsrGraph, edges: seq<Edge>, localEnd: nat, distrustSets: map<nat, set<nat>>, cap: nat)
    requires d.Valid() && localEnd <= d.numNodes
    ensures var admitted := AdmittedUnion(d, localEnd, distrustSets, cap);
            var frontier := RemoteWithin(d.reverse.View(), localEnd, MAX_DEPTH);
            var capped := Footprint(edges, RetainedFlags(d.numNodes, localEnd, admitted));
            var full := Footprint(edges, RetainedFlags(d.numNodes, localEnd, frontier));
            capped.nodes <= full.nodes && capped.edges <= full.edges && capped.TotalBytes() <= full.TotalBytes()
  {
    CapOnlyRemoves(d, localEnd, distrustSets, cap);
    UnionIsFrontier(d.forward.View(), localEnd);
    FootprintMonotone(edges, RetainedFlags(d.numNodes, localEnd, AdmittedUnion(d, localEnd, distrustSets, cap)),
                      RetainedFlags(d.numNodes, localEnd, RemoteWithin(d.reverse.View(), localEnd, MAX_DEPTH)));
  }
}
