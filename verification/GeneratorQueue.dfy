/** The generator's expansion queues: what every step of draining them keeps, in either direction. */
module GeneratorQueue {
  import opened Csr
  import opened GeneratorDraws

  // ----- the expansion queues -----

  ghost predicate Queued(b: Build, queue: seq<(nat, nat)>) {
    forall k :: 0 <= k < |queue| ==> queue[k].0 in b.nodeToLoc && 1 <= queue[k].1 <= 2
  }

  /** Every remote node is queued for two levels. */
  ghost predicate AllQueued(b: Build, queue: seq<(nat, nat)>) {
    forall id :: id in b.nodeToLoc ==> (id, 2) in queue
  }

  lemma QueueNew(b: Build, queue: seq<(nat, nat)>, id: nat)
    requires forall n :: n in b.nodeToLoc && n != id ==> (n, 2) in queue
    ensures AllQueued(b, queue + [(id, 2)])
  {
    assert (queue + [(id, 2)])[|queue|] == (id, 2);
  }

  ghost predicate OnlyDepth(queue: seq<(nat, nat)>, depth: nat) {
    forall k :: 0 <= k < |queue| ==> queue[k].1 == depth
  }

  /** All depth-2 entries come before all depth-1 entries. */
  ghost predicate Phased(queue: seq<(nat, nat)>) {
    forall i, j :: 0 <= i < j < |queue| ==> queue[i].1 >= queue[j].1
  }

  /** While depth-2 entries remain, every node expanded so far was expanded at depth 2. */
  ghost predicate InPhase(queue: seq<(nat, nat)>, expandedTo: map<nat, nat>) {
    && Phased(queue)
    && Levels(expandedTo)
    && (queue != [] && queue[0].1 == 2 ==> AllDeep(expandedTo))
  }

  ghost predicate Levels(expandedTo: map<nat, nat>) {
    forall n :: n in expandedTo ==> 1 <= expandedTo[n] <= 2
  }

  ghost predicate AllDeep(expandedTo: map<nat, nat>) {
    forall n :: n in expandedTo ==> expandedTo[n] == 2
  }

  lemma LevelsNext(expandedTo: map<nat, nat>, node: nat, depth: nat)
    requires Levels(expandedTo) && 1 <= depth <= 2
    ensures Levels(expandedTo[node := depth])
    ensures AllDeep(expandedTo) && depth == 2 ==> AllDeep(expandedTo[node := depth])
  {}

  /** Entries of depth 2 still queued. */
  ghost function Deep(queue: seq<(nat, nat)>): nat {
    if queue == [] then 0 else (if queue[0].1 == 2 then 1 else 0) + Deep(queue[1..])
  }

  lemma {:induction false} DeepConcat(a: seq<(nat, nat)>, b: seq<(nat, nat)>)
    requires OnlyDepth(b, 1)
    ensures Deep(a + b) == Deep(a)
  {
    if a == [] {
      assert a + b == b;
      if b != [] {
        DeepConcat([], b[1..]);
        assert [] + b[1..] == b[1..];
      }
    } else {
      DeepConcat(a[1..], b);
      assert (a + b)[1..] == a[1..] + b;
    }
  }

  /** A queued node that has been expanded before is always skipped: no node is expanded twice. */
  lemma ExpandedOnce(queue: seq<(nat, nat)>, expandedTo: map<nat, nat>)
    requires InPhase(queue, expandedTo) && queue != [] && 1 <= queue[0].1 <= 2
    ensures var (node, depth) := queue[0];
            var alreadyAt := if node in expandedTo then expandedTo[node] else 0;
            alreadyAt >= depth <==> node in expandedTo
  {}

  lemma PhaseAdvances(queue: seq<(nat, nat)>, expandedTo: map<nat, nat>, pushed: seq<(nat, nat)>)
    requires InPhase(queue, expandedTo) && queue != [] && forall k :: 0 <= k < |queue| ==> 1 <= queue[k].1 <= 2
    requires OnlyDepth(pushed, 1) && (queue[0].1 == 1 ==> pushed == [])
    ensures InPhase(queue[1..] + pushed, expandedTo[queue[0].0 := queue[0].1])
    ensures InPhase(queue[1..], expandedTo)
    ensures Deep(queue[1..] + pushed) < Deep(queue)
              || (Deep(queue[1..] + pushed) == Deep(queue) && |queue[1..] + pushed| < |queue|)
    ensures Deep(queue[1..]) <= Deep(queue)
  {
    hide *;
    PhaseKept(queue, expandedTo, pushed);
    DeepConcat(queue[1..], pushed);
    DeepHead(queue);
  }

  lemma PhaseKept(queue: seq<(nat, nat)>, expandedTo: map<nat, nat>, pushed: seq<(nat, nat)>)
    requires InPhase(queue, expandedTo) && queue != [] && forall k :: 0 <= k < |queue| ==> 1 <= queue[k].1 <= 2
    requires OnlyDepth(pushed, 1)
    ensures InPhase(queue[1..] + pushed, expandedTo[queue[0].0 := queue[0].1])
    ensures InPhase(queue[1..], expandedTo)
  {
    var (node, depth) := queue[0];
    assert 1 <= depth <= 2;
    TailPhased(queue, pushed);
    HeadDepths(queue, pushed);
    LevelsNext(expandedTo, node, depth);
    hide Phased, OnlyDepth, Levels, AllDeep;
  }

  lemma DeepHead(queue: seq<(nat, nat)>)
    requires queue != []
    ensures Deep(queue) == (if queue[0].1 == 2 then 1 else 0) + Deep(queue[1..])
  {}

  /** After the head, a two-level entry comes first only if the head was one too. */
  lemma HeadDepths(queue: seq<(nat, nat)>, pushed: seq<(nat, nat)>)
    requires Phased(queue) && queue != [] && OnlyDepth(pushed, 1)
    ensures var all := queue[1..] + pushed; all != [] && all[0].1 == 2 ==> queue[0].1 >= 2
    ensures |queue| > 1 && queue[1..][0].1 == 2 ==> queue[0].1 >= 2
  {
    if |queue| > 1 { assert queue[1..][0] == queue[1] && queue[0].1 >= queue[1].1; }
  }

  lemma TailPhased(queue: seq<(nat, nat)>, pushed: seq<(nat, nat)>)
    requires Phased(queue) && queue != [] && forall k :: 0 <= k < |queue| ==> 1 <= queue[k].1
    requires OnlyDepth(pushed, 1)
    ensures Phased(queue[1..] + pushed) && Phased(queue[1..])
  {
    var rest := queue[1..];
    var all := rest + pushed;
    forall i, j | 0 <= i < j < |all| ensures all[i].1 >= all[j].1 {
      if j < |rest| {
        assert all[i] == queue[i + 1] && all[j] == queue[j + 1];
      } else {
        assert all[j] == pushed[j - |rest|];
        if i < |rest| { assert all[i] == queue[i + 1]; } else { assert all[i] == pushed[i - |rest|]; }
      }
    }
    forall i, j | 0 <= i < j < |rest| ensures rest[i].1 >= rest[j].1 {
      assert rest[i] == queue[i + 1] && rest[j] == queue[j + 1];
    }
  }

  /** An edge between a node closer to the home instance and one further out has been followed up: a remote user next to
      a home user is expanded, or still queued, for two levels; every other edge belongs to an expanded node, and if
      that one was expanded for two levels then its far end is expanded or still queued too. */
  ghost predicate Followed(c: Config, near: nat, far: nat, queue: seq<(nat, nat)>, expandedTo: map<nat, nat>) {
    && (near < c.nLocal <= far ==> (far in expandedTo && expandedTo[far] == 2) || (far, 2) in queue)
    && (near >= c.nLocal ==> near in expandedTo && (expandedTo[near] == 2 ==> far in expandedTo || (far, 1) in queue))
  }

  lemma FollowedSkips(c: Config, near: nat, far: nat, queue: seq<(nat, nat)>, expandedTo: map<nat, nat>)
    requires Followed(c, near, far, queue, expandedTo) && forall n :: n in expandedTo ==> expandedTo[n] <= 2
    requires queue != [] && queue[0].0 in expandedTo && expandedTo[queue[0].0] >= queue[0].1
    ensures Followed(c, near, far, queue[1..], expandedTo)
  {
    InTail(queue, (far, 1));
    InTail(queue, (far, 2));
  }

  lemma InTail(queue: seq<(nat, nat)>, x: (nat, nat))
    requires queue != []
    ensures x in queue <==> x == queue[0] || x in queue[1..]
  {
    assert queue == [queue[0]] + queue[1..];
  }

  lemma FollowedAdvances(c: Config, near: nat, far: nat, queue: seq<(nat, nat)>, expandedTo: map<nat, nat>,
                         pushed: seq<(nat, nat)>)
    requires Followed(c, near, far, queue, expandedTo) && queue != [] && queue[0].0 !in expandedTo
    ensures Followed(c, near, far, queue[1..] + pushed, expandedTo[queue[0].0 := queue[0].1])
  {
    InTail(queue, (far, 1));
    InTail(queue, (far, 2));
  }

  /** Which direction is followed: whom the nodes trust, or who trusts them. */
  datatype Direction = Outbound | Inbound {
    function Near(e: Edge): nat {
      if Outbound? then e.0 else e.1
    }

    function Far(e: Edge): nat {
      if Outbound? then e.1 else e.0
    }

    function Edge(near: nat, far: nat): Edge {
      if Outbound? then (near, far) else (far, near)
    }
  }

  ghost predicate AllFollowed(c: Config, dir: Direction, edges: seq<Edge>, queue: seq<(nat, nat)>,
                              expandedTo: map<nat, nat>) {
    forall k :: 0 <= k < |edges| ==> Followed(c, dir.Near(edges[k]), dir.Far(edges[k]), queue, expandedTo)
  }

  /** Nothing is left to do: every remote user next to a home user was expanded for two levels, and everyone next to
      those was expanded for one. */
  ghost predicate Explored(c: Config, dir: Direction, edges: seq<Edge>, expandedTo: map<nat, nat>) {
    forall k :: 0 <= k < |edges| ==>
                  var near, far := dir.Near(edges[k]), dir.Far(edges[k]);
                  && (near < c.nLocal <= far ==> far in expandedTo && expandedTo[far] == 2)
                  && (near >= c.nLocal ==> near in expandedTo && (expandedTo[near] == 2 ==> far in expandedTo))
  }

  lemma AllSkip(c: Config, dir: Direction, edges: seq<Edge>, queue: seq<(nat, nat)>, expandedTo: map<nat, nat>)
    requires AllFollowed(c, dir, edges, queue, expandedTo)
    requires queue != [] && queue[0].0 in expandedTo && expandedTo[queue[0].0] >= queue[0].1
    requires forall n :: n in expandedTo ==> expandedTo[n] <= 2
    ensures AllFollowed(c, dir, edges, queue[1..], expandedTo)
  {
    forall k | 0 <= k < |edges| ensures Followed(c, dir.Near(edges[k]), dir.Far(edges[k]), queue[1..], expandedTo) {
      FollowedSkips(c, dir.Near(edges[k]), dir.Far(edges[k]), queue, expandedTo);
    }
  }

  /** New edges hang off the expanded node, with their far ends queued if a level remains. */
  ghost predicate Expansion(dir: Direction, before: seq<Edge>, after: seq<Edge>, node: nat, depth: nat,
                            pushed: seq<(nat, nat)>) {
    before <= after && forall k :: |before| <= k < |after| ==>
      dir.Near(after[k]) == node && (depth == 2 ==> (dir.Far(after[k]), 1) in pushed)
  }

  lemma AllAdvance(c: Config, dir: Direction, edges: seq<Edge>, edges': seq<Edge>, queue: seq<(nat, nat)>,
                   expandedTo: map<nat, nat>, pushed: seq<(nat, nat)>)
    requires AllFollowed(c, dir, edges, queue, expandedTo)
    requires queue != [] && queue[0].0 !in expandedTo && queue[0].0 >= c.nLocal
    requires Expansion(dir, edges, edges', queue[0].0, queue[0].1, pushed)
    ensures AllFollowed(c, dir, edges', queue[1..] + pushed, expandedTo[queue[0].0 := queue[0].1])
  {
    forall k | 0 <= k < |edges'|
      ensures Followed(c, dir.Near(edges'[k]), dir.Far(edges'[k]), queue[1..] + pushed,
                       expandedTo[queue[0].0 := queue[0].1]) {
      if k < |edges| {
        assert edges'[k] == edges[k];
        FollowedAdvances(c, dir.Near(edges[k]), dir.Far(edges[k]), queue, expandedTo, pushed);
      }
    }
  }

  lemma SliceExpansion(dir: Direction, base: seq<Edge>, before: seq<Edge>, after: seq<Edge>, node: nat, depth: nat,
                       pushed: seq<(nat, nat)>)
    requires base <= before && Expansion(dir, before, after, node, depth, pushed)
    ensures Expansion(dir, before[|base|..], after[|base|..], node, depth, pushed)
  {}

  // ----- the state of draining -----

  ghost predicate Draining(c: Config, b: Build, queue: seq<(nat, nat)>, expandedTo: map<nat, nat>) {
    && WellFormed(c, b) && Queued(b, queue) && InPhase(queue, expandedTo)
    && forall n :: n in expandedTo ==> n in b.nodeToLoc
  }

  lemma QueueAdvances(b: Build, b': Build, queue: seq<(nat, nat)>, pushed: seq<(nat, nat)>)
    requires Queued(b, queue) && queue != [] && Extends(b, b') && Queued(b', pushed)
    ensures Queued(b', queue[1..] + pushed)
  {}

  lemma DrainAdvances(c: Config, b: Build, b': Build, queue: seq<(nat, nat)>, expandedTo: map<nat, nat>,
                      pushed: seq<(nat, nat)>)
    requires Draining(c, b, queue, expandedTo) && queue != [] && queue[0].0 !in expandedTo
    requires WellFormed(c, b') && Extends(b, b') && Queued(b', pushed) && OnlyDepth(pushed, 1)
    requires queue[0].1 == 1 ==> pushed == []
    ensures Draining(c, b', queue[1..] + pushed, expandedTo[queue[0].0 := queue[0].1])
  {
    assert forall k :: 0 <= k < |queue| ==> 1 <= queue[k].1 <= 2;
    assert queue[0].0 in b.nodeToLoc;
    PhaseAdvances(queue, expandedTo, pushed);
    QueueAdvances(b, b', queue, pushed);
    hide WellFormed, InPhase, OnlyDepth, Queued;
  }

  lemma DrainSkips(c: Config, b: Build, queue: seq<(nat, nat)>, expandedTo: map<nat, nat>)
    requires Draining(c, b, queue, expandedTo) && queue != []
    ensures Draining(c, b, queue[1..], expandedTo)
    ensures Deep(queue[1..]) <= Deep(queue)
  {
    PhaseAdvances(queue, expandedTo, []);
  }

  // ----- the log of expansions -----

  /** The edges between `node` and its far ends are exactly these. */
  ghost predicate Links(dir: Direction, edges: seq<Edge>, node: nat, ends: set<nat>) {
    forall t: nat :: dir.Edge(node, t) in edges <==> t in ends
  }

  /** Edges that hang off another node do not matter. */
  lemma LinksKept(dir: Direction, before: seq<Edge>, after: seq<Edge>, node: nat, ends: set<nat>, other: nat)
    requires Links(dir, before, node, ends) && before <= after && node != other
    requires forall k :: |before| <= k < |after| ==> dir.Near(after[k]) == other
    ensures Links(dir, after, node, ends)
  {
    assert after == before + after[|before|..];
    forall t: nat ensures dir.Edge(node, t) in after <==> dir.Edge(node, t) in before {
      assert dir.Near(dir.Edge(node, t)) == node;
      if dir.Edge(node, t) in after {
        var k :| 0 <= k < |after| && after[k] == dir.Edge(node, t);
        assert k < |before|;
      }
    }
  }

  /** Every expansion read its ranks from the stream where the one before it stopped, and its edges are there. */
  ghost predicate Fans(c: Config, dir: Direction, b: Build, edges: seq<Edge>, fans: seq<Fanout>,
                       streams: seq<seq<nat>>) {
    && |streams| == |fans| + 1
    && forall k {:trigger fans[k]} :: 0 <= k < |fans| ==>
         FanoutFrom(c, b, fans[k], streams[k], streams[k + 1]) && Links(dir, edges, fans[k].node, fans[k].ends)
  }

  lemma FansStay(c: Config, dir: Direction, b: Build, b': Build, edges: seq<Edge>, fans: seq<Fanout>,
                 streams: seq<seq<nat>>)
    requires Fans(c, dir, b, edges, fans, streams) && Extends(b, b')
    ensures Fans(c, dir, b', edges, fans, streams)
  {
    hide FanoutFrom, Links, Extends;
    forall k | 0 <= k < |fans| ensures FanoutFrom(c, b', fans[k], streams[k], streams[k + 1]) {
      FanoutStays(c, b, b', fans[k], streams[k], streams[k + 1]);
    }
  }

  lemma FansNext(c: Config, dir: Direction, b: Build, b': Build, edges: seq<Edge>, edges': seq<Edge>,
                 fans: seq<Fanout>, streams: seq<seq<nat>>, f: Fanout, after: seq<nat>)
    requires Fans(c, dir, b, edges, fans, streams) && Extends(b, b')
    requires FanoutFrom(c, b', f, streams[|fans|], after) && Links(dir, edges', f.node, f.ends)
    requires edges <= edges' && forall k :: |edges| <= k < |edges'| ==> dir.Near(edges'[k]) == f.node
    requires forall k :: 0 <= k < |fans| ==> fans[k].node != f.node
    ensures Fans(c, dir, b', edges', fans + [f], streams + [after])
  {
    FansStay(c, dir, b, b', edges, fans, streams);
    hide FanoutFrom, Links, Extends;
    var fans', streams' := fans + [f], streams + [after];
    forall k | 0 <= k < |fans'|
      ensures FanoutFrom(c, b', fans'[k], streams'[k], streams'[k + 1])
      ensures Links(dir, edges', fans'[k].node, fans'[k].ends) {
      if k < |fans| {
        assert fans'[k] == fans[k] && streams'[k] == streams[k] && streams'[k + 1] == streams[k + 1];
        LinksKept(dir, edges, edges', fans[k].node, fans[k].ends, f.node);
      }
    }
  }

  ghost predicate InFans(fans: seq<Fanout>, node: nat) {
    exists k :: 0 <= k < |fans| && fans[k].node == node
  }

  /** The log holds each expanded node once, with its depth. */
  ghost predicate Logged(fans: seq<Fanout>, expandedTo: map<nat, nat>) {
    && (forall k :: 0 <= k < |fans| ==> fans[k].node in expandedTo && expandedTo[fans[k].node] == fans[k].depth)
    && (forall n :: n in expandedTo ==> InFans(fans, n))
    && (forall k, m :: 0 <= k < m < |fans| ==> fans[k].node != fans[m].node)
  }

  lemma LoggedNext(fans: seq<Fanout>, expandedTo: map<nat, nat>, f: Fanout)
    requires Logged(fans, expandedTo) && f.node !in expandedTo
    ensures Logged(fans + [f], expandedTo[f.node := f.depth])
  {
    var fans' := fans + [f];
    forall n | n in expandedTo || n == f.node ensures InFans(fans', n) {
      if n == f.node {
        assert fans'[|fans|] == f;
      } else {
        var k :| 0 <= k < |fans| && fans[k].node == n;
        assert fans'[k] == fans[k];
      }
    }
  }

  // ----- why a node is expanded -----

  ghost predicate FromHome(c: Config, dir: Direction, edges: seq<Edge>, node: nat) {
    exists k :: 0 <= k < |edges| && dir.Near(edges[k]) < c.nLocal && dir.Far(edges[k]) == node
  }

  ghost predicate FromFan(fans: seq<Fanout>, node: nat) {
    exists k :: 0 <= k < |fans| && fans[k].depth == 2 && node in fans[k].ends
  }

  /** Two levels are followed behind a neighbour of a home user, one behind a neighbour of such a node. */
  ghost predicate Reason(c: Config, dir: Direction, edges: seq<Edge>, fans: seq<Fanout>, node: nat, depth: nat) {
    (depth == 2 && FromHome(c, dir, edges, node)) || (depth == 1 && FromFan(fans, node))
  }

  ghost predicate Reasoned(c: Config, dir: Direction, edges: seq<Edge>, fans: seq<Fanout>, queue: seq<(nat, nat)>) {
    && (forall k :: 0 <= k < |queue| ==> Reason(c, dir, edges, fans, queue[k].0, queue[k].1))
    && (forall k :: 0 <= k < |fans| ==> Reason(c, dir, edges, fans, fans[k].node, fans[k].depth))
  }

  lemma ReasonGrows(c: Config, dir: Direction, edges: seq<Edge>, edges': seq<Edge>, fans: seq<Fanout>,
                    fans': seq<Fanout>, node: nat, depth: nat)
    requires edges <= edges' && fans <= fans' && Reason(c, dir, edges, fans, node, depth)
    ensures Reason(c, dir, edges', fans', node, depth)
  {
    if depth == 2 {
      var k :| 0 <= k < |edges| && dir.Near(edges[k]) < c.nLocal && dir.Far(edges[k]) == node;
      assert edges'[k] == edges[k];
    } else {
      var k :| 0 <= k < |fans| && fans[k].depth == 2 && node in fans[k].ends;
      assert fans'[k] == fans[k];
    }
  }

  /** What an expansion queues are its own far ends. */
  ghost predicate PushedFrom(f: Fanout, pushed: seq<(nat, nat)>) {
    OneLevel(f.depth, f.ends, pushed)
  }

  ghost predicate OneLevel(depth: nat, ends: set<nat>, pushed: seq<(nat, nat)>) {
    forall k :: 0 <= k < |pushed| ==> pushed[k].1 == 1 && depth == 2 && pushed[k].0 in ends
  }

  lemma ReasonedNext(c: Config, dir: Direction, edges: seq<Edge>, edges': seq<Edge>, fans: seq<Fanout>,
                     queue: seq<(nat, nat)>, f: Fanout, pushed: seq<(nat, nat)>)
    requires Reasoned(c, dir, edges, fans, queue) && queue != [] && queue[0] == (f.node, f.depth)
    requires edges <= edges' && PushedFrom(f, pushed)
    ensures Reasoned(c, dir, edges', fans + [f], queue[1..] + pushed)
  {
    var fans', queue' := fans + [f], queue[1..] + pushed;
    assert fans'[|fans|] == f;
    forall k | 0 <= k < |queue'| ensures Reason(c, dir, edges', fans', queue'[k].0, queue'[k].1) {
      var rest := |queue| - 1;
      if k < rest {
        var l := k + 1;
        assert queue'[k] == queue[l];
        ReasonGrows(c, dir, edges, edges', fans, fans', queue[l].0, queue[l].1);
      } else {
        assert queue'[k] == pushed[k - rest];
      }
    }
    forall k | 0 <= k < |fans'| ensures Reason(c, dir, edges', fans', fans'[k].node, fans'[k].depth) {
      if k < |fans| {
        assert fans'[k] == fans[k];
        ReasonGrows(c, dir, edges, edges', fans, fans', fans[k].node, fans[k].depth);
      } else {
        ReasonGrows(c, dir, edges, edges', fans, fans', f.node, f.depth);
      }
    }
  }

  lemma ReasonedSkip(c: Config, dir: Direction, edges: seq<Edge>, fans: seq<Fanout>, queue: seq<(nat, nat)>)
    requires Reasoned(c, dir, edges, fans, queue) && queue != []
    ensures Reasoned(c, dir, edges, fans, queue[1..])
  {}

  // ----- everything a drained queue leaves behind -----

  /** The state of draining in one direction. */
  ghost predicate Working(c: Config, dir: Direction, b: Build, edges: seq<Edge>, queue: seq<(nat, nat)>,
                          expandedTo: map<nat, nat>, fans: seq<Fanout>, streams: seq<seq<nat>>) {
    && Draining(c, b, queue, expandedTo) && AllFollowed(c, dir, edges, queue, expandedTo)
    && Fans(c, dir, b, edges, fans, streams) && Logged(fans, expandedTo) && Reasoned(c, dir, edges, fans, queue)
  }

  /** Nothing is queued any more. */
  ghost predicate Worked(c: Config, dir: Direction, b: Build, edges: seq<Edge>, expandedTo: map<nat, nat>,
                         fans: seq<Fanout>, streams: seq<seq<nat>>) {
    && Explored(c, dir, edges, expandedTo) && Fans(c, dir, b, edges, fans, streams) && Logged(fans, expandedTo)
    && Reasoned(c, dir, edges, fans, [])
  }

  lemma WorkStarts(c: Config, dir: Direction, b: Build, edges: seq<Edge>, queue: seq<(nat, nat)>, rest: seq<nat>)
    requires WellFormed(c, b) && Queued(b, queue) && OnlyDepth(queue, 2)
    requires AllFollowed(c, dir, edges, queue, map[])
    requires forall k :: 0 <= k < |queue| ==> FromHome(c, dir, edges, queue[k].0)
    ensures Working(c, dir, b, edges, queue, map[], [], [rest])
  {}

  lemma WorkSkips(c: Config, dir: Direction, b: Build, edges: seq<Edge>, queue: seq<(nat, nat)>,
                  expandedTo: map<nat, nat>, fans: seq<Fanout>, streams: seq<seq<nat>>)
    requires Working(c, dir, b, edges, queue, expandedTo, fans, streams) && queue != []
    requires queue[0].0 in expandedTo && expandedTo[queue[0].0] >= queue[0].1
    ensures Working(c, dir, b, edges, queue[1..], expandedTo, fans, streams)
    ensures Deep(queue[1..]) <= Deep(queue)
  {
    assert forall n :: n in expandedTo ==> expandedTo[n] <= 2;
    DrainSkips(c, b, queue, expandedTo);
    hide Draining, AllFollowed, Fans, Logged, Reasoned, Deep;
    AllSkip(c, dir, edges, queue, expandedTo);
    ReasonedSkip(c, dir, edges, fans, queue);
  }

  lemma WorkAdvances(c: Config, dir: Direction, b: Build, b': Build, edges: seq<Edge>, edges': seq<Edge>,
                     queue: seq<(nat, nat)>, expandedTo: map<nat, nat>, fans: seq<Fanout>, streams: seq<seq<nat>>,
                     f: Fanout, pushed: seq<(nat, nat)>, after: seq<nat>)
    requires Working(c, dir, b, edges, queue, expandedTo, fans, streams) && queue != []
    requires queue[0] == (f.node, f.depth) && f.node !in expandedTo && f.node >= c.nLocal
    requires WellFormed(c, b') && Extends(b, b') && Queued(b', pushed) && OnlyDepth(pushed, 1)
    requires (f.depth == 1 ==> pushed == []) && PushedFrom(f, pushed)
    requires Expansion(dir, edges, edges', f.node, f.depth, pushed)
    requires FanoutFrom(c, b', f, streams[|fans|], after) && Links(dir, edges', f.node, f.ends)
    ensures Working(c, dir, b', edges', queue[1..] + pushed, expandedTo[f.node := f.depth], fans + [f],
                    streams + [after])
    ensures Deep(queue[1..] + pushed) < Deep(queue)
              || (Deep(queue[1..] + pushed) == Deep(queue) && |queue[1..] + pushed| < |queue|)
  {
    assert edges <= edges' && forall k :: |edges| <= k < |edges'| ==> dir.Near(edges'[k]) == f.node;
    assert forall k :: 0 <= k < |fans| ==> fans[k].node in expandedTo;
    assert InPhase(queue, expandedTo) && forall k :: 0 <= k < |queue| ==> 1 <= queue[k].1 <= 2;
    hide Expansion, AllFollowed, Fans, Logged, Reasoned, Links, FanoutFrom, Draining, PushedFrom, Deep, WellFormed,
         Extends, Queued, OnlyDepth, InPhase;
    PhaseAdvances(queue, expandedTo, pushed);
    DrainAdvances(c, b, b', queue, expandedTo, pushed);
    AllAdvance(c, dir, edges, edges', queue, expandedTo, pushed);
    FansNext(c, dir, b, b', edges, edges', fans, streams, f, after);
    LoggedNext(fans, expandedTo, f);
    ReasonedNext(c, dir, edges, edges', fans, queue, f, pushed);
  }

  lemma WorkDone(c: Config, dir: Direction, b: Build, edges: seq<Edge>, expandedTo: map<nat, nat>, fans: seq<Fanout>,
                 streams: seq<seq<nat>>)
    requires Working(c, dir, b, edges, [], expandedTo, fans, streams)
    ensures Worked(c, dir, b, edges, expandedTo, fans, streams)
  {
    hide Fans, Logged, Reasoned;
  }

  lemma WorkedStays(c: Config, dir: Direction, b: Build, b': Build, edges: seq<Edge>, expandedTo: map<nat, nat>,
                    fans: seq<Fanout>, streams: seq<seq<nat>>)
    requires Worked(c, dir, b, edges, expandedTo, fans, streams) && Extends(b, b')
    ensures Worked(c, dir, b', edges, expandedTo, fans, streams)
  {
    FansStay(c, dir, b, b', edges, fans, streams);
  }
}
