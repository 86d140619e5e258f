/** The federated power-law generator, for every stream of random draws. */
module Generator {
  import opened Csr
  import opened Transpose
  import opened Agreement
  import opened Sorting
  import opened GeneratorDraws
  import opened GeneratorQueue

  /** Look a location up, giving it the next id on first sight. */
  method Materialise(c: Config, b: Build, at: Location) returns (b': Build, id: nat, isNew: bool)
    requires WellFormed(c, b) && c.Exists(at)
    ensures WellFormed(c, b') && Extends(b, b') && b'.edges == b.edges
    ensures id in b'.nodeToLoc && b'.nodeToLoc[id] == at
    ensures isNew <==> at !in b.remoteNodeMap
    ensures b'.nodeToLoc == if isNew then b.nodeToLoc[b.nextNodeId := at] else b.nodeToLoc
    ensures isNew ==> id == b.nextNodeId
    ensures b'.nextNodeId == b.nextNodeId + if isNew then 1 else 0
  {
    if at in b.remoteNodeMap {
      return b, b.remoteNodeMap[at], false;
    }
    id := b.nextNodeId;
    isNew := true;
    b' := Build(b.edges, id + 1, b.remoteNodeMap[at := id], b.nodeToLoc[id := at]);
  }

  // ----- no idle nodes -----

  ghost predicate Touched(edges: seq<Edge>, id: nat) {
    exists k :: 0 <= k < |edges| && (edges[k].0 == id || edges[k].1 == id)
  }

  /** Every remote user has an edge: nobody is made up. */
  ghost predicate AllTouched(b: Build) {
    forall id :: id in b.nodeToLoc ==> Touched(b.edges, id)
  }

  /** The users added since `b` are among `ends`. */
  ghost predicate NewAmong(b: Build, b': Build, ends: set<nat>) {
    forall id :: id in b'.nodeToLoc ==> id in b.nodeToLoc || id in ends
  }

  lemma TouchedNext(b: Build, b': Build, dir: Direction, node: nat, ends: set<nat>)
    requires AllTouched(b) && b.edges <= b'.edges && NewAmong(b, b', ends)
    requires forall t: nat :: t in ends ==> dir.Edge(node, t) in b'.edges
    ensures AllTouched(b')
  {
    forall id | id in b'.nodeToLoc ensures Touched(b'.edges, id) {
      if id in b.nodeToLoc {
        var k :| 0 <= k < |b.edges| && (b.edges[k].0 == id || b.edges[k].1 == id);
        assert b'.edges[k] == b.edges[k];
      } else {
        var k :| 0 <= k < |b'.edges| && b'.edges[k] == dir.Edge(node, id);
      }
    }
  }

  // ----- emitting edges -----

  /** Every edge leaves a node of `sources`. */
  ghost predicate From(edges: seq<Edge>, sources: set<nat>) {
    forall k :: 0 <= k < |edges| ==> edges[k].0 in sources
  }

  /** The edges past `before` are one edge from `source` to each target. */
  ghost predicate Adds(before: seq<Edge>, after: seq<Edge>, source: nat, targets: set<nat>) {
    && (forall k :: |before| <= k < |after| ==> after[k].0 == source && after[k].1 in targets)
    && (forall t :: t in targets ==> (source, t) in after)
  }

  lemma AddsOne(before: seq<Edge>, edges: seq<Edge>, source: nat, targets: set<nat>, t: nat)
    requires before <= edges && Adds(before, edges, source, targets)
    ensures Adds(before, edges + [(source, t)], source, targets + {t})
  {}

  /** The edges so far are sound, none from `source` to a target still in `rest`. */
  ghost predicate Emitting(n: nat, before: seq<Edge>, edges: seq<Edge>, source: nat, targets: set<nat>, rest: set<nat>,
                           sources: set<nat>) {
    && rest <= targets && before <= edges
    && GoodEdges(n, edges) && NoRepeats(edges) && From(edges, sources + {source})
    && Adds(before, edges, source, targets - rest)
    && forall k :: 0 <= k < |edges| && edges[k].0 == source ==> edges[k].1 !in rest
  }

  lemma EmitOne(n: nat, before: seq<Edge>, edges: seq<Edge>, source: nat, targets: set<nat>, rest: set<nat>,
                sources: set<nat>, t: nat)
    requires Emitting(n, before, edges, source, targets, rest, sources) && t in rest
    requires source < n && t < n && t != source
    ensures Emitting(n, before, edges + [(source, t)], source, targets, rest - {t}, sources)
  {
    assert (source, t) !in edges;
    AddsOne(before, edges, source, targets - rest, t);
    assert targets - (rest - {t}) == targets - rest + {t};
  }

  /** Edges may be emitted from `source`, which has none yet. */
  ghost predicate EmitReady(c: Config, b: Build, source: nat, targets: set<nat>, sources: set<nat>) {
    && WellFormed(c, b) && source < b.nextNodeId && (forall t :: t in targets ==> t < b.nextNodeId && t != source)
    && From(b.edges, sources) && source !in sources && NoRepeats(b.edges)
  }

  /** One edge from `source` to each target has been added, and nothing else. */
  ghost predicate Emission(c: Config, b: Build, b': Build, source: nat, targets: set<nat>, sources: set<nat>) {
    && WellFormed(c, b') && Extends(b, b') && b'.nodeToLoc == b.nodeToLoc && b'.nextNodeId == b.nextNodeId
    && From(b'.edges, sources + {source}) && NoRepeats(b'.edges)
    && b.edges <= b'.edges && Adds(b.edges, b'.edges, source, targets) && |b'.edges| == |b.edges| + |targets|
    && Links(Outbound, b'.edges, source, targets)
  }

  /** One edge from `source` to each target, in an arbitrary order. */
  method Emit(c: Config, b: Build, source: nat, targets: set<nat>, ghost sources: set<nat>) returns (b': Build)
    requires EmitReady(c, b, source, targets, sources)
    ensures Emission(c, b, b', source, targets, sources)
  {
    var edges := b.edges;
    var rest := targets;
    EmitStarts(c, b, source, targets, sources);
    hide *;
    while rest != {}
      invariant rest <= targets && Emitting(b.nextNodeId, b.edges, edges, source, targets, rest, sources)
      invariant |edges| + |rest| == |b.edges| + |targets|
    {
      var t: nat :| t in rest;
      EmitTarget(c, b, source, targets, sources, t);
      EmitOne(b.nextNodeId, b.edges, edges, source, targets, rest, sources, t);
      edges := edges + [(source, t)];
      rest := rest - {t};
    }
    EmitDone(c, b, source, targets, sources, edges);
    b' := b.(edges := edges);
  }

  lemma EmitStarts(c: Config, b: Build, source: nat, targets: set<nat>, sources: set<nat>)
    requires EmitReady(c, b, source, targets, sources)
    ensures Emitting(b.nextNodeId, b.edges, b.edges, source, targets, targets, sources)
  {}

  lemma EmitTarget(c: Config, b: Build, source: nat, targets: set<nat>, sources: set<nat>, t: nat)
    requires EmitReady(c, b, source, targets, sources) && t in targets
    ensures source < b.nextNodeId && t < b.nextNodeId && t != source
  {}

  lemma EmitDone(c: Config, b: Build, source: nat, targets: set<nat>, sources: set<nat>, edges: seq<Edge>)
    requires EmitReady(c, b, source, targets, sources)
    requires Emitting(b.nextNodeId, b.edges, edges, source, targets, {}, sources)
    requires |edges| == |b.edges| + |targets|
    ensures Emission(c, b, b.(edges := edges), source, targets, sources)
  {
    assert targets - {} == targets;
    LinksAdded(b.edges, edges, source, targets, sources);
    hide Links, NoRepeats, From, Adds;
  }

  lemma LinksAdded(before: seq<Edge>, after: seq<Edge>, source: nat, targets: set<nat>, sources: set<nat>)
    requires From(before, sources) && source !in sources && before <= after && Adds(before, after, source, targets)
    ensures Links(Outbound, after, source, targets)
  {
    assert forall k :: 0 <= k < |before| ==> after[k] == before[k] && after[k].0 != source;
    forall t: nat | (source, t) in after ensures t in targets {
      var k :| 0 <= k < |after| && after[k] == (source, t);
    }
  }

  // ----- outgoing edges of a home user -----

  /** What drawing for one home user keeps: the edges so far, every remote user queued for two levels, and every new
      remote user among the targets. */
  ghost predicate Drawing(c: Config, base: Build, b: Build, queue: seq<(nat, nat)>, targets: set<nat>) {
    && WellFormed(c, b) && Extends(base, b) && b.edges == base.edges
    && Queued(b, queue) && OnlyDepth(queue, 2) && AllQueued(b, queue)
    && forall id :: base.nextNodeId <= id < b.nextNodeId ==> id in targets
  }

  /** The remote user at a drawn location, queued if it is new. */
  method ReachRemote(c: Config, ghost base: Build, b: Build, at: Location, queue: seq<(nat, nat)>, targets: set<nat>)
    returns (b': Build, id: nat, queue': seq<(nat, nat)>)
    requires Drawing(c, base, b, queue, targets) && c.Exists(at)
    ensures Drawing(c, base, b', queue', targets + {id}) && Extends(b, b')
    ensures id < b'.nextNodeId && PersonOf(b', id) == Faraway(at) && c.nLocal <= id
  {
    hide GoodEdges;
    var isNew;
    b', id, isNew := Materialise(c, b, at);
    queue' := queue;
    if isNew {
      QueueNew(b', queue, id);
      queue' := queue + [(id, 2)];
    }
  }

  /** The uniform fallback: other home users, drawn until there are `d` targets. */
  method UniformFallback(c: Config, user: nat, d: nat, targets: set<nat>, rest: seq<nat>)
    returns (targets': set<nat>, rest': seq<nat>)
    requires c.nLocal > 0 && |targets| <= d
    ensures (targets', rest') == Fallback(c.nLocal, user, d, targets, rest)
    ensures |targets'| <= d && targets' <= targets + Others(c.nLocal, user)
    ensures rest' != [] ==> rest != [] && |targets'| == d
  {
    targets', rest' := targets, rest;
    while |targets'| < d && rest' != []
      invariant |targets'| <= d && targets' <= targets + Others(c.nLocal, user) && (rest' != [] ==> rest != [])
      invariant Fallback(c.nLocal, user, d, targets', rest') == Fallback(c.nLocal, user, d, targets, rest)
      decreases |rest'|
    {
      var (t, r) := Draw(rest', c.nLocal);
      rest' := r;
      if t != user { targets' := targets' + {t}; }
    }
  }

  /** A home user drawn directly needs no new node. */
  lemma DrawNearby(c: Config, base: Build, b: Build, queue: seq<(nat, nat)>, targets: set<nat>, t: nat)
    requires Drawing(c, base, b, queue, targets) && t < c.nLocal
    ensures Drawing(c, base, b, queue, targets + {t}) && t < b.nextNodeId && PersonOf(b, t) == Nearby(t)
    ensures Bijection(c, b) && Extends(b, b)
  {}

  lemma DrawMore(c: Config, base: Build, b: Build, queue: seq<(nat, nat)>, targets: set<nat>, targets': set<nat>)
    requires Drawing(c, base, b, queue, targets) && targets <= targets'
    ensures Drawing(c, base, b, queue, targets')
  {}

  lemma DrawingFacts(c: Config, base: Build, b: Build, queue: seq<(nat, nat)>, targets: set<nat>)
    requires Drawing(c, base, b, queue, targets)
    ensures Bijection(c, b) && c.nLocal <= b.nextNodeId
  {}

  lemma {:induction false} FallbackGrows(nLocal: nat, user: nat, d: nat, targets: set<nat>, rest: seq<nat>)
    requires nLocal > 0
    ensures targets <= Fallback(nLocal, user, d, targets, rest).0
    decreases |rest|
  {
    if |targets| < d && rest != [] {
      var (t, r) := Draw(rest, nLocal);
      FallbackGrows(nLocal, user, d, if t != user then targets + {t} else targets, r);
    }
  }

  /** The state after `n` attempts. */
  ghost predicate Trying(c: Config, base: Build, b: Build, user: nat, d: nat, queue: seq<(nat, nat)>,
                         targets: set<nat>, before: seq<nat>, rest: seq<nat>, n: nat) {
    && c.Valid() && user < c.nLocal && Drawing(c, base, b, queue, targets) && n <= Cap(d)
    && Reached(c, b, user, d, before, n, targets) && rest == PicksRest(c, before, n)
    && (rest != [] ==> before != [])
  }

  /** One attempt: a home user, or a remote one by instance and rank. */
  method TryTarget(c: Config, ghost base: Build, b: Build, user: nat, ghost d: nat, queue: seq<(nat, nat)>,
                   targets: set<nat>, rest: seq<nat>, ghost before: seq<nat>, ghost n: nat)
    returns (b': Build, targets': set<nat>, queue': seq<(nat, nat)>, rest': seq<nat>)
    requires Trying(c, base, b, user, d, queue, targets, before, rest, n) && |targets| < d && n < Cap(d) && rest != []
    ensures Trying(c, base, b', user, d, queue', targets', before, rest', n + 1) && |rest'| < |rest|
  {
    DrawingFacts(c, base, b, queue, targets);
    assert PickAt(c, before, n) == ReadPick(c, rest).0 && PicksRest(c, before, n + 1) == ReadPick(c, rest).1;
    hide Drawing, Reached, Bijection, Extends, PicksRest, PickAt, Cap, PersonOf;
    var (far, r0) := Draw(rest, 2);
    if far == 0 {
      var (t, r1) := Draw(r0, c.nLocal);
      assert ReadPick(c, rest) == (Nearby(t), r1);
      b', queue', rest' := b, queue, r1;
      DrawNearby(c, base, b, queue, targets, t);
      ReachOne(c, b, b, user, d, before, n, targets, t);
      targets' := if t != user then targets + {t} else targets;
    } else {
      var (inst, r1) := Draw(r0, |c.sizes|);
      var (rank, r2) := Draw(r1, c.sizes[inst]);
      assert ReadPick(c, rest) == (Faraway((inst, rank + 1)), r2);
      rest' := r2;
      var id;
      b', id, queue' := ReachRemote(c, base, b, (inst, rank + 1), queue, targets);
      targets' := targets + {id};
      DrawingFacts(c, base, b', queue', targets');
      ReachOne(c, b, b', user, d, before, n, targets, id);
    }
  }

  ghost predicate HomeReady(c: Config, b: Build, user: nat, queue: seq<(nat, nat)>) {
    WellFormed(c, b) && user < c.nLocal && Queued(b, queue) && OnlyDepth(queue, 2) && AllQueued(b, queue)
  }

  /** The targets drawn for a home user, and what the draws say about them. */
  ghost predicate HomeDrawn(c: Config, base: Build, b: Build, user: nat, d: nat, queue: seq<(nat, nat)>,
                            targets: set<nat>, before: seq<nat>, after: seq<nat>, log: HomeLog) {
    && Drawing(c, base, b, queue, targets) && HomeFrom(c, b, user, d, log, before, after) && log.targets == targets
    && |targets| <= d && (forall t :: t in targets ==> t < b.nextNodeId && t != user)
    && (after != [] ==> before != [] && |targets| == d)
  }

  lemma TryingStarts(c: Config, b: Build, user: nat, d: nat, queue: seq<(nat, nat)>, rest: seq<nat>)
    requires HomeReady(c, b, user, queue)
    ensures Trying(c, b, b, user, d, queue, {}, rest, rest, 0)
  {
    ReachNothing(c, b, user, d, rest);
  }

  /** Draw the targets of a home user: exactly the persons named by the stream, up to `d` of them. */
  method HomeTargets(c: Config, b: Build, user: nat, d: nat, queue: seq<(nat, nat)>, rest: seq<nat>)
    returns (b': Build, targets: set<nat>, queue': seq<(nat, nat)>, rest': seq<nat>, ghost log: HomeLog)
    requires HomeReady(c, b, user, queue)
    ensures HomeDrawn(c, b, b', user, d, queue', targets, rest, rest', log)
  {
    hide *;
    b', targets, queue', rest' := b, {}, queue, rest;
    TryingStarts(c, b, user, d, queue, rest);
    var cap := if d * 20 > 64 then d * 20 else 64;
    CapIs(d);
    var attempts := 0;
    while |targets| < d && rest' != []
      invariant Trying(c, b, b', user, d, queue', targets, rest, rest', attempts) && attempts <= cap
      decreases |rest'|
    {
      attempts := attempts + 1;
      if attempts > cap {
        ghost var reached, mid := targets, rest';
        TryingFacts(c, b, b', user, d, queue', targets, rest, rest', cap);
        targets, rest' := UniformFallback(c, user, d, targets, rest');
        log := HomeLog(cap, reached, targets);
        FellBack(c, b, b', user, d, queue', log, rest, mid, rest');
        return;
      }
      b', targets, queue', rest' := TryTarget(c, b, b', user, d, queue', targets, rest', rest, attempts - 1);
    }
    log := HomeLog(attempts, targets, targets);
    Finished(c, b, b', user, d, queue', log, rest, rest');
  }

  lemma CapIs(d: nat)
    ensures Cap(d) == if d * 20 > 64 then d * 20 else 64
  {}

  lemma TryingFacts(c: Config, base: Build, b: Build, user: nat, d: nat, queue: seq<(nat, nat)>, targets: set<nat>,
                    before: seq<nat>, rest: seq<nat>, n: nat)
    requires Trying(c, base, b, user, d, queue, targets, before, rest, n)
    ensures c.nLocal > 0 && |targets| <= d && (rest != [] ==> before != [])
  {}

  lemma OthersBelow(nLocal: nat, user: nat, reached: set<nat>, targets: set<nat>, bound: nat)
    requires targets <= reached + Others(nLocal, user) && nLocal <= bound
    requires forall t :: t in reached ==> t < bound && t != user
    ensures forall t :: t in targets ==> t < bound && t != user
  {}

  lemma FellBack(c: Config, base: Build, b: Build, user: nat, d: nat, queue: seq<(nat, nat)>, log: HomeLog,
                 before: seq<nat>, mid: seq<nat>, after: seq<nat>)
    requires Trying(c, base, b, user, d, queue, log.reached, before, mid, log.attempts)
    requires log.attempts == Cap(d) && mid != [] && |log.reached| < d
    requires (log.targets, after) == Fallback(c.nLocal, user, d, log.reached, mid)
    requires |log.targets| <= d && log.targets <= log.reached + Others(c.nLocal, user)
    requires after != [] ==> mid != [] && |log.targets| == d
    ensures HomeDrawn(c, base, b, user, d, queue, log.targets, before, after, log)
  {
    ReachedFacts(c, b, user, d, before, log.attempts, log.reached);
    DrawingFacts(c, base, b, queue, log.reached);
    FallbackGrows(c.nLocal, user, d, log.reached, mid);
    hide Fallback, Cap, Reached, Drawing;
    DrawMore(c, base, b, queue, log.reached, log.targets);
    OthersBelow(c.nLocal, user, log.reached, log.targets, b.nextNodeId);
  }

  lemma Finished(c: Config, base: Build, b: Build, user: nat, d: nat, queue: seq<(nat, nat)>, log: HomeLog,
                 before: seq<nat>, after: seq<nat>)
    requires Trying(c, base, b, user, d, queue, log.reached, before, after, log.attempts)
    requires log.targets == log.reached && (|log.reached| >= d || after == [])
    ensures HomeDrawn(c, base, b, user, d, queue, log.targets, before, after, log)
  {
    ReachedFacts(c, b, user, d, before, log.attempts, log.reached);
    hide Fallback, Cap, Reached, Drawing;
  }

  lemma ReachedFacts(c: Config, b: Build, user: nat, d: nat, before: seq<nat>, n: nat, ids: set<nat>)
    requires Reached(c, b, user, d, before, n, ids)
    ensures c.Valid() && c.nLocal > 0 && |ids| <= d && forall t :: t in ids ==> t < b.nextNodeId && t != user
  {}

  /** The targets of the first `users` home users were drawn one after the other, and their edges are there. */
  ghost predicate HomeRun(c: Config, outDegrees: seq<nat>, users: nat, b: Build, edges: seq<Edge>, logs: seq<HomeLog>,
                          streams: seq<seq<nat>>) {
    && |logs| == users <= |outDegrees| && |streams| == users + 1
    && forall u {:trigger logs[u]} :: 0 <= u < users ==>
         && HomeFrom(c, b, u, outDegrees[u], logs[u], streams[u], streams[u + 1])
         && Links(Outbound, edges, u, logs[u].targets)
  }

  lemma HomeRunStays(c: Config, outDegrees: seq<nat>, users: nat, b: Build, b': Build, edges: seq<Edge>,
                     edges': seq<Edge>, logs: seq<HomeLog>, streams: seq<seq<nat>>, source: nat)
    requires HomeRun(c, outDegrees, users, b, edges, logs, streams)
    requires Bijection(c, b) && Bijection(c, b') && Extends(b, b')
    requires edges <= edges' && users <= source && forall k :: |edges| <= k < |edges'| ==> edges'[k].0 == source
    ensures HomeRun(c, outDegrees, users, b', edges', logs, streams)
  {
    hide HomeFrom, Links, Bijection, Extends;
    forall u | 0 <= u < users
      ensures HomeFrom(c, b', u, outDegrees[u], logs[u], streams[u], streams[u + 1])
      ensures Links(Outbound, edges', u, logs[u].targets) {
      HomeStays(c, b, b', u, outDegrees[u], logs[u], streams[u], streams[u + 1]);
      LinksKept(Outbound, edges, edges', u, logs[u].targets, source);
    }
  }

  lemma HomeRunNext(c: Config, outDegrees: seq<nat>, user: nat, b: Build, edges: seq<Edge>, logs: seq<HomeLog>,
                    streams: seq<seq<nat>>, log: HomeLog, after: seq<nat>)
    requires HomeRun(c, outDegrees, user, b, edges, logs, streams) && user < |outDegrees|
    requires HomeFrom(c, b, user, outDegrees[user], log, streams[user], after)
    requires Links(Outbound, edges, user, log.targets)
    ensures HomeRun(c, outDegrees, user + 1, b, edges, logs + [log], streams + [after])
  {
    hide HomeFrom, Links;
    var logs', streams' := logs + [log], streams + [after];
    forall u | 0 <= u < user + 1
      ensures HomeFrom(c, b, u, outDegrees[u], logs'[u], streams'[u], streams'[u + 1])
      ensures Links(Outbound, edges, u, logs'[u].targets) {
      if u < user {
        assert logs'[u] == logs[u] && streams'[u] == streams[u] && streams'[u + 1] == streams[u + 1];
      }
    }
  }

  /** No home user has more out-edges than drawn for it, and none has fewer unless the draws ran out. */
  ghost predicate HomeDegrees(outDegrees: seq<nat>, users: nat, edges: seq<Edge>, full: bool)
    requires users <= |outDegrees|
  {
    forall u: nat :: u < users ==> |Row(edges, u)| <= outDegrees[u] && (full ==> |Row(edges, u)| == outDegrees[u])
  }

  lemma {:induction false} AppendedRows(before: seq<Edge>, after: seq<Edge>, source: nat, u: nat)
    requires before <= after && forall k :: |before| <= k < |after| ==> after[k].0 == source
    ensures |Row(after, u)| == |Row(before, u)| + if u == source then |after| - |before| else 0
    decreases |after|
  {
    if |after| > |before| {
      AppendedRows(before, after[..|after| - 1], source, u);
    } else {
      assert after == before;
    }
  }

  lemma {:induction false} NoRow(edges: seq<Edge>, sources: set<nat>, u: nat)
    requires From(edges, sources) && u !in sources
    ensures Row(edges, u) == []
  {
    if edges != [] { NoRow(edges[..|edges| - 1], sources, u); }
  }

  lemma DegreeNext(outDegrees: seq<nat>, user: nat, before: seq<Edge>, after: seq<Edge>, sources: set<nat>, full: bool)
    requires user < |outDegrees| && HomeDegrees(outDegrees, user, before, full)
    requires From(before, sources) && user !in sources
    requires before <= after && forall k :: |before| <= k < |after| ==> after[k].0 == user
    requires |after| - |before| <= outDegrees[user] && (full ==> |after| - |before| == outDegrees[user])
    ensures HomeDegrees(outDegrees, user + 1, after, full)
  {
    NoRow(before, sources, user);
    forall u: nat | u < user + 1
      ensures |Row(after, u)| <= outDegrees[u] && (full ==> |Row(after, u)| == outDegrees[u]) {
      AppendedRows(before, after, user, u);
    }
  }

  /** Edges of remote users leave the home users' out-degrees alone. */
  lemma {:induction false} DegreesKept(outDegrees: seq<nat>, before: seq<Edge>, after: seq<Edge>, full: bool)
    requires HomeDegrees(outDegrees, |outDegrees|, before, full) && before <= after
    requires forall k :: |before| <= k < |after| ==> after[k].0 >= |outDegrees|
    ensures HomeDegrees(outDegrees, |outDegrees|, after, full)
  {
    if |after| > |before| {
      var init := after[..|after| - 1];
      DegreesKept(outDegrees, before, init, full);
      assert forall u: nat :: u < |outDegrees| ==> Row(after, u) == Row(init, u) + [];
    } else {
      assert after == before;
    }
  }

  /** Every remote user so far is a home user's target. */
  ghost predicate AllFromHome(c: Config, b: Build) {
    forall id :: id in b.nodeToLoc ==> FromHome(c, Outbound, b.edges, id)
  }

  lemma AllFromHomeNext(c: Config, b: Build, b1: Build, b': Build, queue: seq<(nat, nat)>, user: nat,
                        targets: set<nat>)
    requires AllFromHome(c, b) && WellFormed(c, b) && Drawing(c, b, b1, queue, targets) && user < c.nLocal
    requires b1.nodeToLoc == b'.nodeToLoc && b1.edges <= b'.edges && Links(Outbound, b'.edges, user, targets)
    ensures AllFromHome(c, b')
  {
    forall id | id in b'.nodeToLoc ensures FromHome(c, Outbound, b'.edges, id) {
      if id < b.nextNodeId {
        var k :| 0 <= k < |b.edges| && b.edges[k].0 < c.nLocal && b.edges[k].1 == id;
        assert b'.edges[k] == b.edges[k];
      } else {
        assert Outbound.Edge(user, id) in b'.edges;
      }
    }
  }

  /** What the loop over home users keeps. */
  ghost predicate HomeState(c: Config, outDegrees: seq<nat>, user: nat, b: Build, queue: seq<(nat, nat)>,
                            rest: seq<nat>,
                            sources: set<nat>, logs: seq<HomeLog>, streams: seq<seq<nat>>) {
    && user <= c.nLocal == |outDegrees| && WellFormed(c, b) && NoRepeats(b.edges) && From(b.edges, sources)
    && (forall s :: s in sources <==> 0 <= s < user)
    && Queued(b, queue) && OnlyDepth(queue, 2) && AllQueued(b, queue) && AllFromHome(c, b)
    && HomeDegrees(outDegrees, user, b.edges, rest != [])
    && HomeRun(c, outDegrees, user, b, b.edges, logs, streams) && streams[user] == rest
  }

  lemma HomeStep(c: Config, outDegrees: seq<nat>, user: nat, b: Build, queue: seq<(nat, nat)>, rest: seq<nat>,
                 sources: set<nat>, logs: seq<HomeLog>, streams: seq<seq<nat>>, b1: Build, queue': seq<(nat, nat)>,
                 rest': seq<nat>, log: HomeLog, b': Build)
    requires HomeState(c, outDegrees, user, b, queue, rest, sources, logs, streams) && user < c.nLocal
    requires HomeDrawn(c, b, b1, user, outDegrees[user], queue', log.targets, rest, rest', log)
    requires Emission(c, b1, b', user, log.targets, sources)
    ensures HomeState(c, outDegrees, user + 1, b', queue', rest', sources + {user}, logs + [log], streams + [rest'])
  {
    hide *;
    HomeStateParts(c, outDegrees, user, b, queue, rest, sources, logs, streams);
    HomeStepFacts(c, b, b1, b', user, outDegrees[user], queue', rest, rest', log, sources);
    BijectionOf(c, b);
    AllFromHomeNext(c, b, b1, b', queue', user, log.targets);
    HomeWeaker(outDegrees, user, b.edges, rest != [], rest' != []);
    DegreeNext(outDegrees, user, b.edges, b'.edges, sources, rest' != []);
    HomeStays(c, b1, b', user, outDegrees[user], log, rest, rest');
    HomeRunStays(c, outDegrees, user, b, b', b.edges, b'.edges, logs, streams, user);
    HomeRunNext(c, outDegrees, user, b', b'.edges, logs, streams, log, rest');
    HomeStateMade(c, outDegrees, user + 1, b', queue', rest', sources + {user}, logs + [log], streams + [rest']);
  }

  lemma HomeStateParts(c: Config, outDegrees: seq<nat>, user: nat, b: Build, queue: seq<(nat, nat)>, rest: seq<nat>,
                       sources: set<nat>, logs: seq<HomeLog>, streams: seq<seq<nat>>)
    requires HomeState(c, outDegrees, user, b, queue, rest, sources, logs, streams)
    ensures user <= c.nLocal == |outDegrees| && WellFormed(c, b) && From(b.edges, sources)
    ensures (forall s :: s in sources <==> 0 <= s < user) && AllFromHome(c, b)
    ensures HomeDegrees(outDegrees, user, b.edges, rest != [])
    ensures HomeRun(c, outDegrees, user, b, b.edges, logs, streams) && |streams| == user + 1 && streams[user] == rest
  {}

  lemma HomeStateMade(c: Config, outDegrees: seq<nat>, user: nat, b: Build, queue: seq<(nat, nat)>, rest: seq<nat>,
                      sources: set<nat>, logs: seq<HomeLog>, streams: seq<seq<nat>>)
    requires user <= c.nLocal == |outDegrees| && WellFormed(c, b) && NoRepeats(b.edges) && From(b.edges, sources)
    requires (forall s :: s in sources <==> 0 <= s < user) && AllFromHome(c, b)
    requires Queued(b, queue) && OnlyDepth(queue, 2) && AllQueued(b, queue)
    requires HomeDegrees(outDegrees, user, b.edges, rest != [])
    requires HomeRun(c, outDegrees, user, b, b.edges, logs, streams) && |streams| == user + 1 && streams[user] == rest
    ensures HomeState(c, outDegrees, user, b, queue, rest, sources, logs, streams)
  {}

  lemma HomeStepFacts(c: Config, b: Build, b1: Build, b': Build, user: nat, d: nat, queue': seq<(nat, nat)>,
                      rest: seq<nat>, rest': seq<nat>, log: HomeLog, sources: set<nat>)
    requires HomeDrawn(c, b, b1, user, d, queue', log.targets, rest, rest', log)
    requires Emission(c, b1, b', user, log.targets, sources)
    ensures b1.edges == b.edges <= b'.edges && Bijection(c, b1) && Bijection(c, b') && WellFormed(c, b')
    ensures Extends(b, b') && Extends(b1, b') && b1.nodeToLoc == b'.nodeToLoc
    ensures Queued(b', queue') && OnlyDepth(queue', 2) && AllQueued(b', queue') && NoRepeats(b'.edges)
    ensures Drawing(c, b, b1, queue', log.targets) && Links(Outbound, b'.edges, user, log.targets)
    ensures From(b'.edges, sources + {user}) && forall k :: |b.edges| <= k < |b'.edges| ==> b'.edges[k].0 == user
    ensures |b'.edges| - |b.edges| <= d && (rest' != [] ==> rest != [] && |b'.edges| - |b.edges| == d)
    ensures HomeFrom(c, b1, user, d, log, rest, rest')
  {
    hide HomeFrom, Links, NoRepeats;
  }

  lemma RunLengths(c: Config, outDegrees: seq<nat>, users: nat, b: Build, edges: seq<Edge>, logs: seq<HomeLog>,
                   streams: seq<seq<nat>>)
    requires HomeRun(c, outDegrees, users, b, edges, logs, streams)
    ensures |logs| == users <= |outDegrees| && |streams| == users + 1
  {}

  lemma HomeWeaker(outDegrees: seq<nat>, users: nat, edges: seq<Edge>, full: bool, full': bool)
    requires users <= |outDegrees| && HomeDegrees(outDegrees, users, edges, full) && (full' ==> full)
    ensures HomeDegrees(outDegrees, users, edges, full')
  {}

  /** The home users' outgoing edges; every remote user they reach is queued for two more levels. */
  method HomeEdges(c: Config, outDegrees: seq<nat>, draws: seq<nat>)
    returns (b: Build, queue: seq<(nat, nat)>, rest: seq<nat>, ghost sources: set<nat>, ghost logs: seq<HomeLog>,
             ghost streams: seq<seq<nat>>)
    requires c.Valid() && |outDegrees| == c.nLocal
    ensures HomeState(c, outDegrees, c.nLocal, b, queue, rest, sources, logs, streams) && streams[0] == draws
  {
    b := Build([], c.nLocal, map[], map[]);
    rest, queue := draws, [];
    sources, logs, streams := {}, [], [draws];
    HomeStarts(c, outDegrees, draws);
    hide *;
    for user := 0 to c.nLocal
      invariant HomeState(c, outDegrees, user, b, queue, rest, sources, logs, streams)
      invariant |streams| > 0 && streams[0] == draws
    {
      HomeStateFacts(c, outDegrees, user, b, queue, rest, sources, logs, streams);
      ghost var before, queued, unread := b, queue, rest;
      ghost var log;
      var targets;
      b, targets, queue, rest, log := HomeTargets(c, b, user, outDegrees[user], queue, rest);
      ghost var drawn := b;
      TargetFacts(c, outDegrees, user, before, queued, unread, sources, logs, streams, b, queue, targets, rest, log);
      b := Emit(c, b, user, targets, sources);
      HomeStep(c, outDegrees, user, before, queued, unread, sources, logs, streams, drawn, queue, rest, log, b);
      sources, logs, streams := sources + {user}, logs + [log], streams + [rest];
    }
  }

  lemma HomeStarts(c: Config, outDegrees: seq<nat>, draws: seq<nat>)
    requires c.Valid() && |outDegrees| == c.nLocal
    ensures HomeState(c, outDegrees, 0, Build([], c.nLocal, map[], map[]), [], draws, {}, [], [draws])
  {}

  lemma TargetFacts(c: Config, outDegrees: seq<nat>, user: nat, b: Build, queue: seq<(nat, nat)>, rest: seq<nat>,
                    sources: set<nat>, logs: seq<HomeLog>, streams: seq<seq<nat>>, b1: Build, queue': seq<(nat, nat)>,
                    targets: set<nat>, rest': seq<nat>, log: HomeLog)
    requires HomeState(c, outDegrees, user, b, queue, rest, sources, logs, streams) && user < |outDegrees|
    requires HomeDrawn(c, b, b1, user, outDegrees[user], queue', targets, rest, rest', log)
    ensures EmitReady(c, b1, user, targets, sources) && log.targets == targets
  {
    hide HomeRun, HomeDegrees, HomeFrom;
  }

  lemma HomeStateFacts(c: Config, outDegrees: seq<nat>, user: nat, b: Build, queue: seq<(nat, nat)>, rest: seq<nat>,
                       sources: set<nat>, logs: seq<HomeLog>, streams: seq<seq<nat>>)
    requires HomeState(c, outDegrees, user, b, queue, rest, sources, logs, streams)
    ensures user < c.nLocal ==> HomeReady(c, b, user, queue)
    ensures user <= |outDegrees| == c.nLocal && |streams| == user + 1
  {}

  // ----- expanding a remote user -----

  /** Drawing colleagues: the stream read so far names exactly the targets. */
  ghost predicate Sampling(c: Config, base: Build, b: Build, node: nat, d: nat, drawn: seq<nat>, ends: set<nat>) {
    && WellFormed(c, b) && Extends(base, b) && b.edges == base.edges && node in base.nodeToLoc
    && Sampled(c, b, base.nodeToLoc[node].0, base.nodeToLoc[node].1, d, drawn, ends) && NewAmong(base, b, ends)
  }

  lemma SamplingStarts(c: Config, b: Build, node: nat, d: nat)
    requires WellFormed(c, b) && node in b.nodeToLoc
    ensures Sampling(c, b, b, node, d, [], {})
    ensures b.nodeToLoc[node].0 < |c.sizes| && c.sizes[b.nodeToLoc[node].0] >= 1
  {
    SampleNothing(c, b, b.nodeToLoc[node].0, b.nodeToLoc[node].1, d);
  }

  lemma SamplingOwn(c: Config, base: Build, b: Build, node: nat, d: nat, drawn: seq<nat>, ends: set<nat>, x: nat)
    requires Sampling(c, base, b, node, d, drawn, ends) && |ends| < d && |drawn| < Cap(d)
    requires RankOf(x, c.sizes[base.nodeToLoc[node].0]) == base.nodeToLoc[node].1
    ensures Sampling(c, base, b, node, d, drawn + [x], ends)
  {
    hide WellFormed, Extends;
    SampleOwn(c, b, base.nodeToLoc[node].0, base.nodeToLoc[node].1, d, drawn, ends, x);
  }

  /** The colleague of a drawn rank becomes a target. */
  method AddColleague(c: Config, ghost base: Build, b: Build, ghost node: nat, ghost d: nat, ghost drawn: seq<nat>,
                      targets: set<nat>, ghost x: nat, at: Location)
    returns (b': Build, targets': set<nat>)
    requires Sampling(c, base, b, node, d, drawn, targets) && |targets| < d && |drawn| < Cap(d)
    requires at == (base.nodeToLoc[node].0, RankOf(x, c.sizes[base.nodeToLoc[node].0])) && at != base.nodeToLoc[node]
    ensures Sampling(c, base, b', node, d, drawn + [x], targets')
  {
    assert c.Exists(at);
    hide GoodEdges, Sampled;
    var id, isNew;
    b', id, isNew := Materialise(c, b, at);
    assert Bijection(c, b') && Extends(base, b');
    hide Bijection;
    targets' := targets + {id};
    SampleHit(c, b, b', at.0, base.nodeToLoc[node].1, d, drawn, targets, x, id);
  }

  /** Draw distinct colleagues until there are `d`, the attempts are used up or the stream ends. */
  method InstanceTargets(c: Config, b: Build, node: nat, d: nat, rest: seq<nat>)
    returns (b': Build, targets: set<nat>, rest': seq<nat>, ghost drawn: seq<nat>)
    requires WellFormed(c, b) && node in b.nodeToLoc
    ensures Sampling(c, b, b', node, d, drawn, targets) && rest == drawn + rest'
    ensures |targets| == d || |drawn| == Cap(d) || rest' == []
  {
    var (inst, thisRank) := b.nodeToLoc[node];
    b', targets, rest', drawn := b, {}, rest, [];
    SamplingStarts(c, b, node, d);
    hide Sampling, WellFormed;
    var cap := if d * 20 > 64 then d * 20 else 64;
    var attempts := 0;
    while |targets| < d && rest' != []
      invariant Sampling(c, b, b', node, d, drawn, targets) && rest == drawn + rest'
      invariant attempts == |drawn| <= cap == Cap(d)
      decreases |rest'|
    {
      attempts := attempts + 1;
      if attempts > cap { break; }
      ghost var x := rest'[0];
      assert rest' == [x] + rest'[1..] && drawn + rest' == drawn + [x] + rest'[1..];
      var (rank, r) := Draw(rest', c.sizes[inst]);
      rest' := r;
      if rank + 1 == thisRank {
        SamplingOwn(c, b, b', node, d, drawn, targets, x);
        drawn := drawn + [x];
        continue;
      }
      b', targets := AddColleague(c, b, b', node, d, drawn, targets, x, (inst, rank + 1));
      drawn := drawn + [x];
    }
    SamplingSize(c, b, b', node, d, drawn, targets);
  }

  lemma SamplingSize(c: Config, base: Build, b: Build, node: nat, d: nat, drawn: seq<nat>, ends: set<nat>)
    requires Sampling(c, base, b, node, d, drawn, ends)
    ensures |ends| <= d
  {}

  ghost predicate Enqueued(targets: set<nat>, pushed: seq<(nat, nat)>) {
    && OnlyDepth(pushed, 1) && (forall k :: 0 <= k < |pushed| ==> pushed[k].0 in targets)
    && forall t :: t in targets ==> (t, 1) in pushed
  }

  /** Queue entries of depth 1 for the targets, in an arbitrary order. */
  method Enqueue(targets: set<nat>) returns (pushed: seq<(nat, nat)>)
    ensures Enqueued(targets, pushed)
  {
    pushed := [];
    var rest := targets;
    while rest != {}
      invariant rest <= targets
      invariant OnlyDepth(pushed, 1) && forall k :: 0 <= k < |pushed| ==> pushed[k].0 in targets
      invariant forall t :: t in targets && t !in rest ==> (t, 1) in pushed
    {
      var t: nat :| t in rest;
      pushed := pushed + [(t, 1)];
      rest := rest - {t};
    }
  }

  lemma SamplingFacts(c: Config, base: Build, b: Build, node: nat, d: nat, drawn: seq<nat>, ends: set<nat>)
    requires Sampling(c, base, b, node, d, drawn, ends)
    ensures WellFormed(c, b) && Extends(base, b) && b.edges == base.edges && node < b.nextNodeId
    ensures forall t :: t in ends ==> t in b.nodeToLoc && t < b.nextNodeId && t != node
  {
    SampledOthers(c, b, node, d, drawn, ends);
    hide Sampled;
    assert Bijection(c, b);
    hide Places, InInstance;
    SampledIds(c, b, base.nodeToLoc[node].0, base.nodeToLoc[node].1, d, drawn, ends);
  }

  lemma SampledIds(c: Config, b: Build, inst: nat, own: nat, d: nat, drawn: seq<nat>, ends: set<nat>)
    requires Sampled(c, b, inst, own, d, drawn, ends)
    ensures forall t :: t in ends ==> t in b.nodeToLoc
  {}

  lemma FanoutMade(c: Config, base: Build, b: Build, b': Build, f: Fanout, tier: nat, rest: seq<nat>, r: seq<nat>,
                   rest': seq<nat>)
    requires WellFormed(c, base) && f.node in base.nodeToLoc && c.sizes[base.nodeToLoc[f.node].0] > 1
    requires (tier, r) == Draw(rest, 3) && r == f.drawn + rest'
    requires Sampling(c, base, b, f.node, TierDegree(c, tier), f.drawn, f.ends) && Extends(b, b')
    requires |f.ends| == TierDegree(c, tier) || |f.drawn| == Cap(TierDegree(c, tier)) || rest' == []
    ensures FanoutFrom(c, b', f, rest, rest')
  {
    var (inst, own) := base.nodeToLoc[f.node];
    hide Sampled;
    SampledStays(c, b, b', inst, own, TierDegree(c, tier), f.drawn, f.ends);
  }

  /** What expanding one remote node does: the drawn fan-out, its edges, and its place in the queue. */
  ghost predicate Expanded(c: Config, b: Build, b': Build, sources: set<nat>, pushed: seq<(nat, nat)>, f: Fanout,
                           rest: seq<nat>, rest': seq<nat>) {
    && WellFormed(c, b') && Extends(b, b') && NoRepeats(b'.edges) && From(b'.edges, sources + {f.node})
    && OnlyDepth(pushed, 1) && Queued(b', pushed) && (f.depth == 1 ==> pushed == []) && PushedFrom(f, pushed)
    && Expansion(Outbound, b.edges, b'.edges, f.node, f.depth, pushed)
    && FanoutFrom(c, b', f, rest, rest') && Links(Outbound, b'.edges, f.node, f.ends) && NewAmong(b, b', f.ends)
  }

  /** Expand one remote node: draw its fan-out and emit the edges. */
  method ExpandNode(c: Config, b: Build, node: nat, depthRemaining: nat, rest: seq<nat>, ghost sources: set<nat>)
    returns (b': Build, rest': seq<nat>, pushed: seq<(nat, nat)>, ghost f: Fanout)
    requires WellFormed(c, b) && node in b.nodeToLoc && node !in sources && 1 <= depthRemaining <= 2
    requires NoRepeats(b.edges) && From(b.edges, sources)
    ensures Expanded(c, b, b', sources, pushed, f, rest, rest') && f.node == node && f.depth == depthRemaining
  {
    var (tier, r) := Draw(rest, 3);
    var (inst, _) := b.nodeToLoc[node];
    b', rest', pushed := b, r, [];
    f := Fanout(node, depthRemaining, [], {});
    if c.sizes[inst] <= 1 {
      NoLinks(b.edges, sources, node);
      return;
    }
    hide *;
    var targets;
    ghost var drawn;
    b', targets, rest', drawn := InstanceTargets(c, b, node, TierDegree(c, tier), r);
    f := Fanout(node, depthRemaining, drawn, targets);
    SamplingReady(c, b, b', node, TierDegree(c, tier), drawn, targets, sources);
    ghost var sampled := b';
    b' := Emit(c, b', node, targets, sources);
    if depthRemaining > 1 {
      pushed := Enqueue(targets);
    }
    EmissionParts(c, sampled, b', node, targets, sources);
    FanoutMade(c, b, sampled, b', f, tier, rest, r, rest');
    ExpandedMade(c, b, sampled, b', sources, pushed, f, TierDegree(c, tier), rest, rest');
  }

  lemma EmissionParts(c: Config, b: Build, b': Build, source: nat, targets: set<nat>, sources: set<nat>)
    requires Emission(c, b, b', source, targets, sources)
    ensures Extends(b, b')
  {}

  lemma SamplingReady(c: Config, base: Build, b: Build, node: nat, d: nat, drawn: seq<nat>, ends: set<nat>,
                      sources: set<nat>)
    requires Sampling(c, base, b, node, d, drawn, ends) && NoRepeats(base.edges) && From(base.edges, sources)
    requires node !in sources
    ensures EmitReady(c, b, node, ends, sources)
  {
    SamplingFacts(c, base, b, node, d, drawn, ends);
    hide NoRepeats, Sampling;
  }

  lemma ExpandedMade(c: Config, base: Build, b: Build, b': Build, sources: set<nat>, pushed: seq<(nat, nat)>, f: Fanout,
                     d: nat, rest: seq<nat>, rest': seq<nat>)
    requires Sampling(c, base, b, f.node, d, f.drawn, f.ends) && Emission(c, b, b', f.node, f.ends, sources)
    requires FanoutFrom(c, b', f, rest, rest') && 1 <= f.depth <= 2
    requires if f.depth > 1 then Enqueued(f.ends, pushed) else pushed == []
    ensures Expanded(c, base, b', sources, pushed, f, rest, rest')
  {
    SamplingFacts(c, base, b, f.node, d, f.drawn, f.ends);
    ExtendsTwice(base, b, b');
    hide FanoutFrom, Links, NoRepeats, Sampling, WellFormed;
  }

  lemma NoLinks(edges: seq<Edge>, sources: set<nat>, node: nat)
    requires From(edges, sources) && node !in sources
    ensures Links(Outbound, edges, node, {})
  {}

  /** The forward half: home edges, then two further levels behind every remote user they reach. */
  ghost predicate ForwardGraph(c: Config, outDegrees: seq<nat>, draws: seq<nat>, b: Build, edges: seq<Edge>,
                               logs: seq<HomeLog>, homeStreams: seq<seq<nat>>, fans: seq<Fanout>,
                               streams: seq<seq<nat>>, expandedTo: map<nat, nat>) {
    && NoRepeats(edges) && HomeRun(c, outDegrees, c.nLocal, b, edges, logs, homeStreams) && homeStreams[0] == draws
    && Worked(c, Outbound, b, edges, expandedTo, fans, streams) && streams[0] == homeStreams[c.nLocal]
    && HomeDegrees(outDegrees, c.nLocal, edges, streams[0] != [])
  }

  /** What draining the forward queue keeps besides the work itself. */
  ghost predicate Forwarding(c: Config, outDegrees: seq<nat>, b: Build, sources: set<nat>, logs: seq<HomeLog>,
                             homeStreams: seq<seq<nat>>, expandedTo: map<nat, nat>) {
    && |outDegrees| == c.nLocal && NoRepeats(b.edges) && From(b.edges, sources) && AllTouched(b)
    && (forall s :: s in sources <==> 0 <= s < c.nLocal || s in expandedTo)
    && HomeRun(c, outDegrees, c.nLocal, b, b.edges, logs, homeStreams)
    && HomeDegrees(outDegrees, c.nLocal, b.edges, homeStreams[c.nLocal] != [])
  }

  lemma ForwardStarts(c: Config, outDegrees: seq<nat>, b: Build, queue: seq<(nat, nat)>, rest: seq<nat>,
                      sources: set<nat>, logs: seq<HomeLog>, streams: seq<seq<nat>>)
    requires HomeState(c, outDegrees, c.nLocal, b, queue, rest, sources, logs, streams)
    ensures Working(c, Outbound, b, b.edges, queue, map[], [], [rest])
    ensures Forwarding(c, outDegrees, b, sources, logs, streams, map[]) && streams[c.nLocal] == rest
  {
    hide HomeRun, HomeDegrees;
    forall id | id in b.nodeToLoc ensures Touched(b.edges, id) { assert FromHome(c, Outbound, b.edges, id); }
    forall k | 0 <= k < |b.edges| ensures Followed(c, b.edges[k].0, b.edges[k].1, queue, map[]) {
      assert b.edges[k].0 < c.nLocal && b.edges[k].1 < b.nextNodeId;
    }
    WorkStarts(c, Outbound, b, b.edges, queue, rest);
  }

  lemma ExpandedParts(c: Config, b: Build, b': Build, sources: set<nat>, pushed: seq<(nat, nat)>, f: Fanout,
                      rest: seq<nat>, rest': seq<nat>)
    requires Expanded(c, b, b', sources, pushed, f, rest, rest')
    ensures Bijection(c, b') && Extends(b, b') && NoRepeats(b'.edges) && From(b'.edges, sources + {f.node})
    ensures b.edges <= b'.edges && forall k :: |b.edges| <= k < |b'.edges| ==> b'.edges[k].0 == f.node
    ensures NewAmong(b, b', f.ends) && forall t: nat :: t in f.ends ==> Outbound.Edge(f.node, t) in b'.edges
  {
    hide FanoutFrom, NoRepeats;
  }

  lemma ForwardKeeps(c: Config, outDegrees: seq<nat>, b: Build, b': Build, sources: set<nat>, logs: seq<HomeLog>,
                     homeStreams: seq<seq<nat>>, expandedTo: map<nat, nat>, f: Fanout, pushed: seq<(nat, nat)>,
                     rest: seq<nat>, rest': seq<nat>)
    requires Forwarding(c, outDegrees, b, sources, logs, homeStreams, expandedTo) && f.node >= c.nLocal
    requires WellFormed(c, b) && Expanded(c, b, b', sources, pushed, f, rest, rest')
    ensures Forwarding(c, outDegrees, b', sources + {f.node}, logs, homeStreams, expandedTo[f.node := f.depth])
  {
    hide *;
    BijectionOf(c, b);
    ExpandedParts(c, b, b', sources, pushed, f, rest, rest');
    ForwardingParts(c, outDegrees, b, sources, logs, homeStreams, expandedTo);
    TouchedNext(b, b', Outbound, f.node, f.ends);
    HomeRunStays(c, outDegrees, c.nLocal, b, b', b.edges, b'.edges, logs, homeStreams, f.node);
    RunLengths(c, outDegrees, c.nLocal, b', b'.edges, logs, homeStreams);
    DegreesKept(outDegrees, b.edges, b'.edges, homeStreams[c.nLocal] != []);
    ForwardingMade(c, outDegrees, b', sources + {f.node}, logs, homeStreams, expandedTo[f.node := f.depth]);
  }

  lemma BijectionOf(c: Config, b: Build)
    requires WellFormed(c, b)
    ensures Bijection(c, b)
  {}

  lemma ForwardingParts(c: Config, outDegrees: seq<nat>, b: Build, sources: set<nat>, logs: seq<HomeLog>,
                        homeStreams: seq<seq<nat>>, expandedTo: map<nat, nat>)
    requires Forwarding(c, outDegrees, b, sources, logs, homeStreams, expandedTo)
    ensures |outDegrees| == c.nLocal && AllTouched(b) && |homeStreams| == c.nLocal + 1
    ensures forall s :: s in sources <==> 0 <= s < c.nLocal || s in expandedTo
    ensures HomeRun(c, outDegrees, c.nLocal, b, b.edges, logs, homeStreams)
    ensures HomeDegrees(outDegrees, c.nLocal, b.edges, homeStreams[c.nLocal] != [])
  {}

  lemma ForwardingMade(c: Config, outDegrees: seq<nat>, b: Build, sources: set<nat>, logs: seq<HomeLog>,
                       homeStreams: seq<seq<nat>>, expandedTo: map<nat, nat>)
    requires |outDegrees| == c.nLocal && AllTouched(b) && |homeStreams| == c.nLocal + 1
    requires forall s :: s in sources <==> 0 <= s < c.nLocal || s in expandedTo
    requires HomeRun(c, outDegrees, c.nLocal, b, b.edges, logs, homeStreams)
    requires HomeDegrees(outDegrees, c.nLocal, b.edges, homeStreams[c.nLocal] != [])
    requires NoRepeats(b.edges) && From(b.edges, sources)
    ensures Forwarding(c, outDegrees, b, sources, logs, homeStreams, expandedTo)
  {}

  lemma WorkFacts(c: Config, dir: Direction, b: Build, edges: seq<Edge>, queue: seq<(nat, nat)>,
                  expandedTo: map<nat, nat>, fans: seq<Fanout>, streams: seq<seq<nat>>)
    requires Working(c, dir, b, edges, queue, expandedTo, fans, streams) && queue != []
    ensures var (node, depth) := queue[0];
            && WellFormed(c, b) && node in b.nodeToLoc && node >= c.nLocal && 1 <= depth <= 2
            && |streams| == |fans| + 1
            && ((if node in expandedTo then expandedTo[node] else 0) >= depth <==> node in expandedTo)
    ensures forall k :: 0 <= k < |edges| && dir.Near(edges[k]) >= c.nLocal ==> dir.Near(edges[k]) in expandedTo
  {
    ExpandedOnce(queue, expandedTo);
    assert forall k :: 0 <= k < |edges| ==> Followed(c, dir.Near(edges[k]), dir.Far(edges[k]), queue, expandedTo);
  }

  /** Steps 3 and 4: home edges, then two further levels behind every remote user they reach. */
  method GenerateForward(c: Config, outDegrees: seq<nat>, draws: seq<nat>)
    returns (b: Build, rest: seq<nat>, ghost logs: seq<HomeLog>, ghost homeStreams: seq<seq<nat>>,
             ghost fans: seq<Fanout>, ghost streams: seq<seq<nat>>, ghost expandedTo: map<nat, nat>)
    requires c.Valid() && |outDegrees| == c.nLocal
    ensures WellFormed(c, b) && AllTouched(b) && |streams| > 0 && streams[|streams| - 1] == rest
    ensures ForwardGraph(c, outDegrees, draws, b, b.edges, logs, homeStreams, fans, streams, expandedTo)
  {
    var queue;
    ghost var sources;
    b, queue, rest, sources, logs, homeStreams := HomeEdges(c, outDegrees, draws);
    var expandedAt: map<nat, nat> := map[];
    fans, streams := [], [rest];
    hide *;
    ForwardStarts(c, outDegrees, b, queue, rest, sources, logs, homeStreams);
    while queue != []
      invariant Working(c, Outbound, b, b.edges, queue, expandedAt, fans, streams)
      invariant Forwarding(c, outDegrees, b, sources, logs, homeStreams, expandedAt)
      invariant |streams| == |fans| + 1 && streams[0] == homeStreams[c.nLocal] && streams[|fans|] == rest
      decreases Deep(queue), |queue|
    {
      var (node, depthRemaining) := queue[0];
      WorkFacts(c, Outbound, b, b.edges, queue, expandedAt, fans, streams);
      var alreadyAt := if node in expandedAt then expandedAt[node] else 0;
      if alreadyAt >= depthRemaining {
        WorkSkips(c, Outbound, b, b.edges, queue, expandedAt, fans, streams);
        queue := queue[1..];
        continue;
      }
      ForwardFacts(c, outDegrees, b, sources, logs, homeStreams, expandedAt, node);
      ghost var before := b;
      ghost var f;
      var pushed;
      b, rest, pushed, f := ExpandNode(c, b, node, depthRemaining, rest, sources);
      ForwardKeeps(c, outDegrees, before, b, sources, logs, homeStreams, expandedAt, f, pushed, streams[|fans|], rest);
      ForwardAdvances(c, before, b, sources, queue, expandedAt, fans, streams, f, pushed, rest);
      expandedAt := expandedAt[node := depthRemaining];
      fans, streams := fans + [f], streams + [rest];
      sources := sources + {node};
      queue := queue[1..] + pushed;
    }
    expandedTo := expandedAt;
    ForwardDone(c, outDegrees, draws, b, sources, logs, homeStreams, fans, streams, expandedTo);
  }

  lemma ForwardAdvances(c: Config, b: Build, b': Build, sources: set<nat>, queue: seq<(nat, nat)>,
                        expandedTo: map<nat, nat>, fans: seq<Fanout>, streams: seq<seq<nat>>, f: Fanout,
                        pushed: seq<(nat, nat)>, after: seq<nat>)
    requires Working(c, Outbound, b, b.edges, queue, expandedTo, fans, streams) && |streams| == |fans| + 1
    requires queue != [] && queue[0] == (f.node, f.depth) && f.node !in expandedTo && f.node >= c.nLocal
    requires Expanded(c, b, b', sources, pushed, f, streams[|fans|], after)
    ensures Working(c, Outbound, b', b'.edges, queue[1..] + pushed, expandedTo[f.node := f.depth], fans + [f],
                    streams + [after])
    ensures Deep(queue[1..] + pushed) < Deep(queue)
              || (Deep(queue[1..] + pushed) == Deep(queue) && |queue[1..] + pushed| < |queue|)
  {
    hide Working, WellFormed, Extends, Queued, OnlyDepth, PushedFrom, Expansion, FanoutFrom, Links, Deep, NoRepeats,
        From;
    WorkAdvances(c, Outbound, b, b', b.edges, b'.edges, queue, expandedTo, fans, streams, f, pushed, after);
  }

  lemma ForwardFacts(c: Config, outDegrees: seq<nat>, b: Build, sources: set<nat>, logs: seq<HomeLog>,
                     homeStreams: seq<seq<nat>>, expandedTo: map<nat, nat>, node: nat)
    requires Forwarding(c, outDegrees, b, sources, logs, homeStreams, expandedTo)
    ensures NoRepeats(b.edges) && From(b.edges, sources)
    ensures node >= c.nLocal && node !in expandedTo ==> node !in sources
  {}

  lemma ForwardDone(c: Config, outDegrees: seq<nat>, draws: seq<nat>, b: Build, sources: set<nat>, logs: seq<HomeLog>,
                    homeStreams: seq<seq<nat>>, fans: seq<Fanout>, streams: seq<seq<nat>>, expandedTo: map<nat, nat>)
    requires Working(c, Outbound, b, b.edges, [], expandedTo, fans, streams)
    requires Forwarding(c, outDegrees, b, sources, logs, homeStreams, expandedTo)
    requires homeStreams[0] == draws && |streams| > 0 && streams[0] == homeStreams[c.nLocal]
    ensures WellFormed(c, b) && AllTouched(b)
    ensures ForwardGraph(c, outDegrees, draws, b, b.edges, logs, homeStreams, fans, streams, expandedTo)
  {
    WorkDone(c, Outbound, b, b.edges, expandedTo, fans, streams);
    hide Worked, HomeRun, HomeDegrees;
  }

  // ----- inbound edges -----

  /** The edges since `base`, none twice, are exactly `seen`. */
  ghost predicate Since(base: seq<Edge>, edges: seq<Edge>, seen: set<Edge>) {
    base <= edges && NoRepeats(edges[|base|..]) && seen == Elements(edges[|base|..])
  }

  /** What the inbound phase keeps: no edge twice, only remote users as sources, and `seen` holds its edges. */
  ghost predicate Phase(c: Config, base: Build, b: Build, seen: set<Edge>) {
    WellFormed(c, b) && Since(base.edges, b.edges, seen) && forall e :: e in seen ==> e.0 in b.nodeToLoc
  }

  lemma SinceNext(base: seq<Edge>, edges: seq<Edge>, seen: set<Edge>, e: Edge)
    requires Since(base, edges, seen) && e !in seen
    ensures Since(base, edges + [e], seen + {e})
  {
    assert (edges + [e])[|base|..] == edges[|base|..] + [e];
    OneMore(edges[|base|..], e);
  }

  lemma OneMore(edges: seq<Edge>, e: Edge)
    requires NoRepeats(edges) && e !in Elements(edges)
    ensures NoRepeats(edges + [e]) && Elements(edges + [e]) == Elements(edges) + {e}
  {}

  /** The phase with one more edge, unless it is there already. */
  ghost function WithEdge(b: Build, seen: set<Edge>, e: Edge): Build {
    if e in seen then b else b.(edges := b.edges + [e])
  }

  lemma PhaseEdge(c: Config, base: Build, b: Build, seen: set<Edge>, e: Edge)
    requires Phase(c, base, b, seen) && e.0 in b.nodeToLoc && e.1 < b.nextNodeId && e.0 != e.1
    ensures Phase(c, base, WithEdge(b, seen, e), seen + {e})
  {
    hide Since;
    if e in seen {
      assert seen == seen + {e};
    } else {
      SinceNext(base.edges, b.edges, seen, e);
      EdgeKeepsForm(c, b, e);
      hide WellFormed;
    }
  }

  lemma EdgeKeepsForm(c: Config, b: Build, e: Edge)
    requires WellFormed(c, b) && e.0 in b.nodeToLoc && e.1 < b.nextNodeId && e.0 != e.1
    ensures WellFormed(c, b.(edges := b.edges + [e]))
  {}

  lemma PhaseStays(c: Config, base: Build, b: Build, b': Build, seen: set<Edge>)
    requires Phase(c, base, b, seen) && WellFormed(c, b') && Extends(b, b') && b'.edges == b.edges
    ensures Phase(c, base, b', seen)
  {
    hide Since, WellFormed;
  }

  /** The user at `at` may be given an edge to `to`. */
  ghost predicate TrusterReady(c: Config, base: Build, b: Build, seen: set<Edge>, at: Location, to: nat) {
    && Phase(c, base, b, seen) && c.Exists(at) && to < b.nextNodeId && (to in b.nodeToLoc ==> b.nodeToLoc[to] != at)
  }

  /** The user at `at` has an edge to `to`, added unless it was there. */
  ghost predicate TrusterAdded(c: Config, base: Build, b: Build, b': Build, seen: set<Edge>, seen': set<Edge>,
                               at: Location, to: nat, id: nat, added: bool) {
    && Phase(c, base, b', seen') && Extends(b, b') && id in b'.nodeToLoc && b'.nodeToLoc[id] == at
    && NewAmong(b, b', {id}) && added == ((id, to) !in seen) && seen' == seen + {(id, to)}
    && b'.edges == if added then b.edges + [(id, to)] else b.edges
  }

  /** An edge from the user at `at` to `to`, unless already there. */
  method AddTruster(c: Config, ghost base: Build, b: Build, seen: set<Edge>, at: Location, to: nat)
    returns (b': Build, seen': set<Edge>, id: nat, added: bool)
    requires TrusterReady(c, base, b, seen, at, to)
    ensures TrusterAdded(c, base, b, b', seen, seen', at, to, id, added)
  {
    assert WellFormed(c, b);
    hide *;
    var isNew;
    ghost var known;
    b', id, isNew := Materialise(c, b, at);
    NewIs(b, b', id);
    known := b';
    TrusterDiffers(c, base, b, b', seen, at, to, id);
    added := (id, to) !in seen;
    seen' := seen + {(id, to)};
    if added { b' := b'.(edges := b'.edges + [(id, to)]); }
    TrusterMade(c, base, b, known, b', seen, at, to, id, added);
  }

  lemma NewIs(b: Build, b': Build, id: nat)
    requires forall n :: n in b'.nodeToLoc && n != id ==> n in b.nodeToLoc
    ensures NewAmong(b, b', {id})
  {}

  lemma TrusterDiffers(c: Config, base: Build, b: Build, b': Build, seen: set<Edge>, at: Location, to: nat, id: nat)
    requires TrusterReady(c, base, b, seen, at, to) && WellFormed(c, b') && Extends(b, b')
    requires id in b'.nodeToLoc && b'.nodeToLoc[id] == at
    ensures id != to && to < b'.nextNodeId && Phase(c, base, b, seen)
  {
    hide Since, GoodEdges;
  }

  lemma TrusterMade(c: Config, base: Build, b: Build, b1: Build, b': Build, seen: set<Edge>, at: Location, to: nat,
                    id: nat, added: bool)
    requires Phase(c, base, b, seen) && WellFormed(c, b1) && Extends(b, b1) && b1.edges == b.edges
    requires id in b1.nodeToLoc && b1.nodeToLoc[id] == at && id != to && to < b1.nextNodeId && NewAmong(b, b1, {id})
    requires added == ((id, to) !in seen) && b' == if added then b1.(edges := b1.edges + [(id, to)]) else b1
    ensures TrusterAdded(c, base, b, b', seen, seen + {(id, to)}, at, to, id, added)
  {
    hide WellFormed, Phase;
    PhaseStays(c, base, b, b1, seen);
    PhaseEdge(c, base, b1, seen, (id, to));
  }

  /** The bridges so far: exactly the drawn ones, each source queued for two levels. */
  ghost predicate Bridging(c: Config, base: Build, b: Build, seen: set<Edge>, queue: seq<(nat, nat)>, draws: seq<nat>,
                           n: nat) {
    && Phase(c, base, b, seen) && Extends(base, b) && Queued(b, queue) && OnlyDepth(queue, 2)
    && Bridged(c, b, seen, draws, n)
    && (forall e :: e in seen ==> (e.0, 2) in queue)
    && (forall k :: 0 <= k < |queue| ==> Bridges(seen, queue[k].0))
    && (forall id :: id in b.nodeToLoc ==> id in base.nodeToLoc || Bridges(seen, id))
  }

  ghost predicate Bridges(edges: set<Edge>, node: nat) {
    exists to: nat :: (node, to) in edges
  }

  lemma BridgingNext(c: Config, base: Build, b: Build, b': Build, seen: set<Edge>, seen': set<Edge>,
                     queue: seq<(nat, nat)>, draws: seq<nat>, n: nat, e: Edge, added: bool)
    requires Bridging(c, base, b, seen, queue, draws, n)
    requires TrusterAdded(c, base, b, b', seen, seen', BridgeAt(c, draws, n).0, BridgeAt(c, draws, n).1, e.0, added)
    requires e.1 == BridgeAt(c, draws, n).1
    ensures Bridging(c, base, b', seen', queue + [(e.0, 2)], draws, n + 1)
  {
    var (at, local) := BridgeAt(c, draws, n);
    BridgingParts(c, base, b, seen, queue, draws, n);
    hide *;
    TrusterParts(c, base, b, b', seen, seen', at, local, e.0, added);
    ExtendsTwice(base, b, b');
    QueueEntry(b, b', queue, e.0);
    BridgeOne(c, b, b', seen, draws, n, e);
    AllBridge(seen, seen', queue, e);
    NewBridge(base, b, b', seen, seen', e);
    BridgingMade(c, base, b', seen', queue + [(e.0, 2)], draws, n + 1);
  }

  lemma NewBridge(base: Build, b: Build, b': Build, seen: set<Edge>, seen': set<Edge>, e: Edge)
    requires (forall id :: id in b.nodeToLoc ==> id in base.nodeToLoc || Bridges(seen, id)) && NewAmong(b, b', {e.0})
    requires seen' == seen + {e}
    ensures forall id :: id in b'.nodeToLoc ==> id in base.nodeToLoc || Bridges(seen', id)
  {
    forall id | id in b'.nodeToLoc && id !in base.nodeToLoc ensures Bridges(seen', id) {
      if id == e.0 {
        assert (id, e.1) in seen';
      } else {
        var to: nat :| (id, to) in seen;
        assert (id, to) in seen';
      }
    }
  }

  lemma QueueEntry(b: Build, b': Build, queue: seq<(nat, nat)>, id: nat)
    requires Queued(b, queue) && OnlyDepth(queue, 2) && Extends(b, b') && id in b'.nodeToLoc
    ensures Queued(b', queue + [(id, 2)]) && OnlyDepth(queue + [(id, 2)], 2)
  {}

  lemma BridgingParts(c: Config, base: Build, b: Build, seen: set<Edge>, queue: seq<(nat, nat)>, draws: seq<nat>,
                      n: nat)
    requires Bridging(c, base, b, seen, queue, draws, n)
    ensures Extends(base, b) && Queued(b, queue) && OnlyDepth(queue, 2) && Bridged(c, b, seen, draws, n)
    ensures (forall e :: e in seen ==> (e.0, 2) in queue) && forall k :: 0 <= k < |queue| ==> Bridges(seen, queue[k].0)
    ensures forall id :: id in b.nodeToLoc ==> id in base.nodeToLoc || Bridges(seen, id)
  {}

  lemma BridgingMade(c: Config, base: Build, b: Build, seen: set<Edge>, queue: seq<(nat, nat)>, draws: seq<nat>, n: nat)
    requires Phase(c, base, b, seen) && Extends(base, b) && Queued(b, queue) && OnlyDepth(queue, 2)
    requires Bridged(c, b, seen, draws, n) && (forall e :: e in seen ==> (e.0, 2) in queue)
    requires forall k :: 0 <= k < |queue| ==> Bridges(seen, queue[k].0)
    requires forall id :: id in b.nodeToLoc ==> id in base.nodeToLoc || Bridges(seen, id)
    ensures Bridging(c, base, b, seen, queue, draws, n)
  {}

  lemma AllBridge(seen: set<Edge>, seen': set<Edge>, queue: seq<(nat, nat)>, e: Edge)
    requires seen' == seen + {e} && forall k :: 0 <= k < |queue| ==> Bridges(seen, queue[k].0)
    requires forall x :: x in seen ==> (x.0, 2) in queue
    ensures var queue' := queue + [(e.0, 2)];
            && (forall k :: 0 <= k < |queue'| ==> Bridges(seen', queue'[k].0))
            && (forall x :: x in seen' ==> (x.0, 2) in queue')
  {
    var queue' := queue + [(e.0, 2)];
    assert queue'[|queue|] == (e.0, 2);
    forall k | 0 <= k < |queue'| ensures Bridges(seen', queue'[k].0) {
      if k < |queue| {
        assert queue'[k] == queue[k];
        var to: nat :| (queue[k].0, to) in seen;
        assert (queue[k].0, to) in seen';
      } else {
        assert (e.0, e.1) in seen';
      }
    }
  }

  /** Step 4b: bridges from remote users to home users, each remote source queued for two inbound levels. */
  method AddBridges(c: Config, b: Build, nInbound: nat, rest: seq<nat>)
    returns (b': Build, queue: seq<(nat, nat)>, seen: set<Edge>, rest': seq<nat>)
    requires WellFormed(c, b)
    ensures Bridging(c, b, b', seen, queue, rest, nInbound) && rest' == BridgesRest(c, rest, nInbound)
  {
    b', queue, seen, rest' := b, [], {}, rest;
    BridgingStarts(c, b, rest);
    hide *;
    for i := 0 to nInbound
      invariant Bridging(c, b, b', seen, queue, rest, i) && rest' == BridgesRest(c, rest, i)
    {
      ghost var before, known := b', seen;
      BridgingFacts(c, b, b', seen, queue, rest, i);
      var at, local, r := DrawBridge(c, rest');
      rest' := r;
      var id, added;
      b', seen, id, added := AddTruster(c, b, b', seen, at, local);
      BridgingNext(c, b, before, b', known, seen, queue, rest, i, (id, local), added);
      queue := queue + [(id, 2)];
    }
  }

  /** Draw a home user, an instance and a rank there. */
  method DrawBridge(c: Config, rest: seq<nat>) returns (at: Location, local: nat, rest': seq<nat>)
    requires c.Valid()
    ensures ((at, local), rest') == ReadBridge(c, rest)
  {
    var (user, r0) := Draw(rest, c.nLocal);
    var (inst, r1) := Draw(r0, |c.sizes|);
    var (rank, r2) := Draw(r1, c.sizes[inst]);
    at, local, rest' := (inst, rank + 1), user, r2;
  }

  lemma BridgingStarts(c: Config, b: Build, rest: seq<nat>)
    requires WellFormed(c, b)
    ensures c.Valid() && Bridging(c, b, b, {}, [], rest, 0) && BridgesRest(c, rest, 0) == rest
  {
    BridgeNothing(c, b, rest);
  }

  lemma BridgingFacts(c: Config, base: Build, b: Build, seen: set<Edge>, queue: seq<(nat, nat)>, draws: seq<nat>,
                      n: nat)
    requires Bridging(c, base, b, seen, queue, draws, n)
    ensures c.Valid() && TrusterReady(c, base, b, seen, BridgeAt(c, draws, n).0, BridgeAt(c, draws, n).1)
    ensures ReadBridge(c, BridgesRest(c, draws, n)) == (BridgeAt(c, draws, n), BridgesRest(c, draws, n + 1))
  {
    hide Since, Bridged;
  }

  /** What an inbound expansion queues and emits. */
  ghost predicate Emitted(start: Build, b: Build, f: Fanout, pushed: seq<(nat, nat)>) {
    && OnlyDepth(pushed, 1) && Queued(b, pushed) && (f.depth == 1 ==> pushed == []) && PushedFrom(f, pushed)
    && Expansion(Inbound, start.edges, b.edges, f.node, f.depth, pushed)
  }

  /** What an inbound expansion has done so far. */
  ghost predicate Trusting(c: Config, base: Build, start: Build, b: Build, seen: set<Edge>, d: nat, f: Fanout,
                           pushed: seq<(nat, nat)>) {
    && Phase(c, base, b, seen) && Extends(start, b) && f.node in start.nodeToLoc && 1 <= f.depth <= 2
    && Sampled(c, b, start.nodeToLoc[f.node].0, start.nodeToLoc[f.node].1, d, f.drawn, f.ends)
    && (forall t: nat :: (t, f.node) in seen <==> t in f.ends)
    && Emitted(start, b, f, pushed) && NewAmong(start, b, f.ends)
  }

  lemma TrustingStarts(c: Config, base: Build, b: Build, seen: set<Edge>, node: nat, d: nat, depth: nat)
    requires Phase(c, base, b, seen) && node in b.nodeToLoc && (forall e :: e in seen ==> e.1 != node)
              && 1 <= depth <= 2
    ensures b.nodeToLoc[node].0 < |c.sizes| && c.sizes[b.nodeToLoc[node].0] >= 1
    ensures Trusting(c, base, b, b, seen, d, Fanout(node, depth, [], {}), [])
  {
    SampleNothing(c, b, b.nodeToLoc[node].0, b.nodeToLoc[node].1, d);
  }

  /** Another draw is due, and it names the user at `at`. */
  ghost predicate DrawsAt(c: Config, start: Build, d: nat, f: Fanout, x: nat, at: Location) {
    && |f.ends| < d && |f.drawn| < Cap(d) && f.node in start.nodeToLoc && at.0 == start.nodeToLoc[f.node].0
    && at.0 < |c.sizes| && c.sizes[at.0] > 0 && at.1 == RankOf(x, c.sizes[at.0])
  }

  lemma TrustingOwn(c: Config, base: Build, start: Build, b: Build, seen: set<Edge>, d: nat, f: Fanout,
                    pushed: seq<(nat, nat)>, x: nat, at: Location)
    requires Trusting(c, base, start, b, seen, d, f, pushed) && DrawsAt(c, start, d, f, x, at)
    requires at == start.nodeToLoc[f.node]
    ensures Trusting(c, base, start, b, seen, d, f.(drawn := f.drawn + [x]), pushed)
  {
    hide Phase, Extends;
    EmittedDrawn(start, b, f, pushed, f.drawn + [x]);
    hide Emitted;
    SampleOwn(c, b, at.0, at.1, d, f.drawn, f.ends, x);
  }

  lemma EmittedDrawn(start: Build, b: Build, f: Fanout, pushed: seq<(nat, nat)>, drawn: seq<nat>)
    requires Emitted(start, b, f, pushed)
    ensures Emitted(start, b, f.(drawn := drawn), pushed)
  {
    var f' := f.(drawn := drawn);
    assert f'.depth == f.depth && f'.ends == f.ends && f'.node == f.node;
    hide Expansion, OneLevel, Queued, OnlyDepth;
  }

  lemma ExpansionNext(base: seq<Edge>, before: seq<Edge>, id: nat, node: nat, depth: nat, pushed: seq<(nat, nat)>)
    requires Expansion(Inbound, base, before, node, depth, pushed)
    ensures Expansion(Inbound, base, before + [(id, node)], node, depth, pushed + [(id, 1)])
    ensures depth == 1 ==> Expansion(Inbound, base, before + [(id, node)], node, depth, pushed)
  {}

  ghost function WithTruster(f: Fanout, x: nat, id: nat): Fanout {
    f.(drawn := f.drawn + [x], ends := f.ends + {id})
  }

  ghost function WithEntry(f: Fanout, pushed: seq<(nat, nat)>, id: nat, added: bool): seq<(nat, nat)> {
    if added && f.depth > 1 then pushed + [(id, 1)] else pushed
  }

  lemma EmittedHit(start: Build, b: Build, b': Build, f: Fanout, pushed: seq<(nat, nat)>, x: nat, id: nat, added: bool)
    requires Emitted(start, b, f, pushed) && Extends(b, b') && id in b'.nodeToLoc && 1 <= f.depth <= 2
    requires b'.edges == if added then b.edges + [(id, f.node)] else b.edges
    ensures Emitted(start, b', WithTruster(f, x, id), WithEntry(f, pushed, id, added))
  {
    ExpansionNext(start.edges, b.edges, id, f.node, f.depth, pushed);
    hide Expansion;
  }

  /** Adding one truster, and queueing it if a level remains, continues the expansion. */
  lemma TrustingHit(c: Config, base: Build, start: Build, b: Build, seen: set<Edge>, d: nat, f: Fanout,
                    pushed: seq<(nat, nat)>, x: nat, at: Location, b': Build, seen': set<Edge>, id: nat, added: bool)
    requires Trusting(c, base, start, b, seen, d, f, pushed) && DrawsAt(c, start, d, f, x, at)
    requires at != start.nodeToLoc[f.node]
    requires TrusterAdded(c, base, b, b', seen, seen', at, f.node, id, added)
    ensures Trusting(c, base, start, b', seen', d, WithTruster(f, x, id), WithEntry(f, pushed, id, added))
    ensures |WithTruster(f, x, id).ends| == |f.ends| + if added then 1 else 0
  {
    var own := start.nodeToLoc[f.node].1;
    DrawsParts(c, start, d, f, x, at);
    hide *;
    TrustingParts(c, base, start, b, seen, d, f, pushed);
    TrusterParts(c, base, b, b', seen, seen', at, f.node, id, added);
    ExtendsTwice(start, b, b');
    EmittedHit(start, b, b', f, pushed, x, id, added);
    SampleHit(c, b, b', at.0, own, d, f.drawn, f.ends, x, id);
    WithIs(f, x, id, pushed, added);
    EndsHit(seen, seen', f.node, f.ends, id, added);
    NewTwice(start, b, b', f.ends, id);
    TrustingMade(c, base, start, b', seen', d, WithTruster(f, x, id), WithEntry(f, pushed, id, added));
  }

  lemma NewTwice(a: Build, b: Build, b': Build, ends: set<nat>, id: nat)
    requires NewAmong(a, b, ends) && NewAmong(b, b', {id})
    ensures NewAmong(a, b', ends + {id})
  {}

  lemma EndsHit(seen: set<Edge>, seen': set<Edge>, node: nat, ends: set<nat>, id: nat, added: bool)
    requires (forall t: nat :: (t, node) in seen <==> t in ends) && seen' == seen + {(id, node)}
    requires added == ((id, node) !in seen)
    ensures forall t: nat :: (t, node) in seen' <==> t in ends + {id}
    ensures |ends + {id}| == |ends| + if added then 1 else 0
  {
    assert id in ends ==> ends + {id} == ends;
  }

  lemma DrawsParts(c: Config, start: Build, d: nat, f: Fanout, x: nat, at: Location)
    requires DrawsAt(c, start, d, f, x, at)
    ensures |f.ends| < d && |f.drawn| < Cap(d) && f.node in start.nodeToLoc && at.0 == start.nodeToLoc[f.node].0
    ensures at.0 < |c.sizes| && c.sizes[at.0] > 0 && at.1 == RankOf(x, c.sizes[at.0])
  {}

  lemma TrustingParts(c: Config, base: Build, start: Build, b: Build, seen: set<Edge>, d: nat, f: Fanout,
                      pushed: seq<(nat, nat)>)
    requires Trusting(c, base, start, b, seen, d, f, pushed)
    ensures Extends(start, b) && f.node in start.nodeToLoc && 1 <= f.depth <= 2
    ensures Sampled(c, b, start.nodeToLoc[f.node].0, start.nodeToLoc[f.node].1, d, f.drawn, f.ends)
    ensures (forall t: nat :: (t, f.node) in seen <==> t in f.ends) && Emitted(start, b, f, pushed)
    ensures NewAmong(start, b, f.ends)
  {}

  lemma TrusterParts(c: Config, base: Build, b: Build, b': Build, seen: set<Edge>, seen': set<Edge>, at: Location,
                     to: nat, id: nat, added: bool)
    requires TrusterAdded(c, base, b, b', seen, seen', at, to, id, added)
    ensures Phase(c, base, b', seen') && Bijection(c, b') && Extends(b, b') && id in b'.nodeToLoc
    ensures b'.nodeToLoc[id] == at && added == ((id, to) !in seen) && seen' == seen + {(id, to)}
    ensures b'.edges == if added then b.edges + [(id, to)] else b.edges
    ensures NewAmong(b, b', {id})
  {}

  lemma TrustingMade(c: Config, base: Build, start: Build, b: Build, seen: set<Edge>, d: nat, f: Fanout,
                     pushed: seq<(nat, nat)>)
    requires Phase(c, base, b, seen) && Extends(start, b) && f.node in start.nodeToLoc && 1 <= f.depth <= 2
    requires Sampled(c, b, start.nodeToLoc[f.node].0, start.nodeToLoc[f.node].1, d, f.drawn, f.ends)
    requires (forall t: nat :: (t, f.node) in seen <==> t in f.ends) && Emitted(start, b, f, pushed)
    requires NewAmong(start, b, f.ends)
    ensures Trusting(c, base, start, b, seen, d, f, pushed)
  {}

  lemma ExtendsTwice(a: Build, b: Build, c: Build)
    requires Extends(a, b) && Extends(b, c)
    ensures Extends(a, c)
  {}

  lemma TrustingReady(c: Config, base: Build, start: Build, b: Build, seen: set<Edge>, d: nat, f: Fanout,
                      pushed: seq<(nat, nat)>, x: nat, at: Location)
    requires Trusting(c, base, start, b, seen, d, f, pushed) && DrawsAt(c, start, d, f, x, at)
    requires at != start.nodeToLoc[f.node]
    ensures TrusterReady(c, base, b, seen, at, f.node)
  {
    hide Since, Sampled, Emitted;
  }

  /** The state of the loop that draws trusters. */
  ghost predicate TrustLoop(c: Config, base: Build, start: Build, b: Build, seen: set<Edge>, d: nat, f: Fanout,
                            pushed: seq<(nat, nat)>, stream: seq<nat>, rest: seq<nat>, count: nat) {
    && Trusting(c, base, start, b, seen, d, f, pushed) && count == |f.ends| <= d && |f.drawn| <= Cap(d)
    && stream == f.drawn + rest && start.nodeToLoc[f.node].0 < |c.sizes| && c.sizes[start.nodeToLoc[f.node].0] > 1
  }

  lemma LoopDraw(c: Config, base: Build, start: Build, b: Build, seen: set<Edge>, d: nat, f: Fanout,
                 pushed: seq<(nat, nat)>, stream: seq<nat>, rest: seq<nat>, count: nat, at: Location)
    requires TrustLoop(c, base, start, b, seen, d, f, pushed, stream, rest, count)
    requires count < d && |f.drawn| < Cap(d) && rest != []
    requires f.node in start.nodeToLoc && at.0 == start.nodeToLoc[f.node].0
    requires at.1 == Draw(rest, c.sizes[at.0]).0 + 1
    ensures Trusting(c, base, start, b, seen, d, f, pushed) && DrawsAt(c, start, d, f, rest[0], at)
    ensures stream == f.drawn + [rest[0]] + rest[1..] && Draw(rest, c.sizes[at.0]).1 == rest[1..]
  {
    hide Trusting, Cap;
  }

  lemma LoopNext(c: Config, base: Build, start: Build, b: Build, seen: set<Edge>, d: nat, f: Fanout,
                 pushed: seq<(nat, nat)>, stream: seq<nat>, rest: seq<nat>, count: nat)
    requires Trusting(c, base, start, b, seen, d, f, pushed) && count == |f.ends| && |f.drawn| <= Cap(d)
    requires stream == f.drawn + rest && f.node in start.nodeToLoc
    requires start.nodeToLoc[f.node].0 < |c.sizes| && c.sizes[start.nodeToLoc[f.node].0] > 1
    ensures TrustLoop(c, base, start, b, seen, d, f, pushed, stream, rest, count)
  {
    hide Phase, Emitted, Cap;
  }

  /** One draw: nobody new, or a truster with its edge and its place in the queue. */
  method DrawTruster(c: Config, ghost base: Build, ghost start: Build, b: Build, seen: set<Edge>, ghost d: nat,
                     ghost f: Fanout, pushed: seq<(nat, nat)>, ghost stream: seq<nat>, rest: seq<nat>, count: nat,
                     node: nat, depth: nat, inst: nat, thisRank: nat)
    returns (b': Build, seen': set<Edge>, pushed': seq<(nat, nat)>, rest': seq<nat>, count': nat, ghost f': Fanout)
    requires TrustLoop(c, base, start, b, seen, d, f, pushed, stream, rest, count)
    requires count < d && |f.drawn| < Cap(d) && rest != [] && node == f.node && depth == f.depth
    requires f.node in start.nodeToLoc && (inst, thisRank) == start.nodeToLoc[f.node]
    ensures TrustLoop(c, base, start, b', seen', d, f', pushed', stream, rest', count') && |rest'| < |rest|
    ensures |f'.drawn| == |f.drawn| + 1 && f'.node == f.node && f'.depth == f.depth
  {
    ghost var x := rest[0];
    assert inst < |c.sizes| && c.sizes[inst] > 1;
    hide *;
    var (rank, r) := Draw(rest, c.sizes[inst]);
    LoopDraw(c, base, start, b, seen, d, f, pushed, stream, rest, count, (inst, rank + 1));
    b', seen', pushed', rest', count' := b, seen, pushed, r, count;
    if rank + 1 == thisRank {
      TrustingOwn(c, base, start, b, seen, d, f, pushed, x, (inst, rank + 1));
      f' := f.(drawn := f.drawn + [x]);
    } else {
      TrustingReady(c, base, start, b, seen, d, f, pushed, x, (inst, rank + 1));
      var id, added;
      b', seen', id, added := AddTruster(c, base, b, seen, (inst, rank + 1), node);
      TrustingHit(c, base, start, b, seen, d, f, pushed, x, (inst, rank + 1), b', seen', id, added);
      f' := WithTruster(f, x, id);
      WithIs(f, x, id, pushed, added);
      if added {
        count' := count + 1;
        if depth > 1 { pushed' := pushed + [(id, 1)]; }
      }
    }
    LoopNext(c, base, start, b', seen', d, f', pushed', stream, rest', count');
  }

  lemma WithIs(f: Fanout, x: nat, id: nat, pushed: seq<(nat, nat)>, added: bool)
    ensures WithTruster(f, x, id) == f.(drawn := f.drawn + [x], ends := f.ends + {id})
    ensures WithEntry(f, pushed, id, added) == if added && f.depth > 1 then pushed + [(id, 1)] else pushed
  {}

  ghost predicate InboundReady(c: Config, base: Build, b: Build, seen: set<Edge>, node: nat, depth: nat) {
    && Phase(c, base, b, seen) && node in b.nodeToLoc && node >= c.nLocal && 1 <= depth <= 2
    && forall e :: e in seen ==> e.1 != node
  }

  /** What expanding one node inbound does: the drawn trusters, their edges, and their place in the queue. */
  ghost predicate InboundExpanded(c: Config, base: Build, b: Build, b': Build, seen': set<Edge>, node: nat, depth: nat,
                                  d: nat, f: Fanout, pushed: seq<(nat, nat)>, rest: seq<nat>, rest': seq<nat>) {
    && Trusting(c, base, b, b', seen', d, f, pushed) && f.depth == depth && f.node == node
    && FanoutFrom(c, b', f, rest, rest')
  }

  /** Expand one remote node inbound: draw who trusts it and emit those edges. */
  method ExpandInbound(c: Config, ghost base: Build, b: Build, node: nat, depthRemaining: nat, seen: set<Edge>,
                       rest: seq<nat>)
    returns (b': Build, seen': set<Edge>, rest': seq<nat>, pushed: seq<(nat, nat)>, ghost f: Fanout, ghost d: nat)
    requires InboundReady(c, base, b, seen, node, depthRemaining)
    ensures InboundExpanded(c, base, b, b', seen', node, depthRemaining, d, f, pushed, rest, rest')
  {
    var (tier, r) := Draw(rest, 3);
    var (inst, thisRank) := b.nodeToLoc[node];
    b', seen', rest', pushed := b, seen, r, [];
    d, f := TierDegree(c, tier), Fanout(node, depthRemaining, [], {});
    TrustingStarts(c, base, b, seen, node, d, depthRemaining);
    if c.sizes[inst] <= 1 { return; }
    assert [] + r == r;
    LoopNext(c, base, b, b, seen, d, f, pushed, r, rest', 0);
    hide *;
    var dIn := TierDegree(c, tier);
    var cap := if dIn * 20 > 64 then dIn * 20 else 64;
    CapIs(dIn);
    var count, attempts := 0, 0;
    while count < dIn && rest' != []
      invariant TrustLoop(c, base, b, b', seen', d, f, pushed, r, rest', count) && attempts == |f.drawn| <= cap
      invariant f.depth == depthRemaining && f.node == node
      decreases |rest'|
    {
      attempts := attempts + 1;
      if attempts > cap { break; }
      b', seen', pushed, rest', count, f :=
        DrawTruster(c, base, b, b', seen', d, f, pushed, r, rest', count, node, depthRemaining, inst, thisRank);
    }
    InboundFanout(c, base, b, b', seen', node, depthRemaining, d, f, pushed, tier, rest, r, rest', count);
  }

  lemma InboundFanout(c: Config, base: Build, start: Build, b: Build, seen: set<Edge>, node: nat, depth: nat, d: nat,
                      f: Fanout, pushed: seq<(nat, nat)>, tier: nat, rest: seq<nat>, r: seq<nat>, rest': seq<nat>,
                      count: nat)
    requires TrustLoop(c, base, start, b, seen, d, f, pushed, r, rest', count) && f.node == node && f.depth == depth
    requires d == TierDegree(c, tier) && (tier, r) == Draw(rest, 3)
    requires count >= d || |f.drawn| == Cap(d) || rest' == []
    ensures InboundExpanded(c, base, start, b, seen, node, depth, d, f, pushed, rest, rest')
  {
    hide Phase, Emitted, Cap;
  }

  /** The inbound half: the drawn bridges into the home instance, then two levels of trusters behind them. */
  ghost predicate InboundGraph(c: Config, nInbound: nat, draws: seq<nat>, b: Build, edges: seq<Edge>, bridges: nat,
                               fans: seq<Fanout>, streams: seq<seq<nat>>, expandedTo: map<nat, nat>) {
    && NoRepeats(edges) && c.Valid() && bridges <= |edges|
    && Bridged(c, b, Elements(edges[..bridges]), draws, nInbound)
    && (forall k :: bridges <= k < |edges| ==> edges[k].1 in expandedTo)
    && Worked(c, Inbound, b, edges, expandedTo, fans, streams) && streams[0] == BridgesRest(c, draws, nInbound)
  }

  /** What draining the inbound queue keeps besides the work itself. */
  ghost predicate Receiving(c: Config, nInbound: nat, draws: seq<nat>, base: Build, b: Build, seen: set<Edge>,
                            bridges: nat, expandedTo: map<nat, nat>) {
    && Phase(c, base, b, seen) && Extends(base, b) && bridges <= |b.edges| - |base.edges| && AllTouched(b)
    && Bridged(c, b, Elements(b.edges[|base.edges|..][..bridges]), draws, nInbound)
    && (forall k :: bridges <= k < |b.edges| - |base.edges| ==> b.edges[|base.edges|..][k].1 in expandedTo)
  }

  lemma InboundStarts(c: Config, nInbound: nat, draws: seq<nat>, base: Build, b: Build, seen: set<Edge>,
                      queue: seq<(nat, nat)>, rest: seq<nat>)
    requires Bridging(c, base, b, seen, queue, draws, nInbound) && AllTouched(base)
    ensures var edges := b.edges[|base.edges|..];
            && Working(c, Inbound, b, edges, queue, map[], [], [rest])
            && Receiving(c, nInbound, draws, base, b, seen, |edges|, map[])
  {
    var edges := b.edges[|base.edges|..];
    BridgingParts(c, base, b, seen, queue, draws, nInbound);
    assert edges[..|edges|] == edges;
    assert forall e :: e in seen <==> e in edges;
    BridgesTouch(c, base, b, seen);
    BridgesFollowed(c, b, edges, seen, queue, draws, nInbound);
    hide AllTouched, Bridged, Bridging, Since, FromHome;
    WorkStarts(c, Inbound, b, edges, queue, rest);
  }

  lemma BridgesFollowed(c: Config, b: Build, edges: seq<Edge>, seen: set<Edge>, queue: seq<(nat, nat)>, draws: seq<nat>,
                        n: nat)
    requires Bridged(c, b, seen, draws, n) && (forall e :: e in seen <==> e in edges)
    requires forall e :: e in seen ==> (e.0, 2) in queue
    requires forall k :: 0 <= k < |queue| ==> Bridges(seen, queue[k].0)
    ensures AllFollowed(c, Inbound, edges, queue, map[])
    ensures forall k :: 0 <= k < |queue| ==> FromHome(c, Inbound, edges, queue[k].0)
  {
    forall k | 0 <= k < |edges| ensures Followed(c, edges[k].1, edges[k].0, queue, map[]) {
      assert edges[k] in seen;
    }
    forall k | 0 <= k < |queue| ensures FromHome(c, Inbound, edges, queue[k].0) {
      assert Bridges(seen, queue[k].0);
      var to: nat :| (queue[k].0, to) in seen;
      assert (queue[k].0, to) in edges;
      var i :| 0 <= i < |edges| && edges[i] == (queue[k].0, to);
      assert edges[i] in seen && Inbound.Near(edges[i]) < c.nLocal;
    }
  }

  lemma BridgesTouch(c: Config, base: Build, b: Build, seen: set<Edge>)
    requires AllTouched(base) && Since(base.edges, b.edges, seen)
    requires forall id :: id in b.nodeToLoc ==> id in base.nodeToLoc || Bridges(seen, id)
    ensures AllTouched(b)
  {
    forall id | id in b.nodeToLoc ensures Touched(b.edges, id) {
      if id in base.nodeToLoc {
        var k :| 0 <= k < |base.edges| && (base.edges[k].0 == id || base.edges[k].1 == id);
        assert b.edges[k] == base.edges[k];
      } else {
        var to: nat :| (id, to) in seen;
        var tail := b.edges[|base.edges|..];
        assert (id, to) in tail;
        var k :| 0 <= k < |tail| && tail[k] == (id, to);
        assert b.edges[|base.edges| + k] == (id, to);
      }
    }
  }

  lemma InboundKeeps(c: Config, nInbound: nat, draws: seq<nat>, base: Build, b: Build, seen: set<Edge>, bridges: nat,
                     expandedTo: map<nat, nat>, node: nat, d: nat, b': Build, seen': set<Edge>, f: Fanout,
                     pushed: seq<(nat, nat)>)
    requires Receiving(c, nInbound, draws, base, b, seen, bridges, expandedTo)
    requires Trusting(c, base, b, b', seen', d, f, pushed) && f.node == node
    ensures Receiving(c, nInbound, draws, base, b', seen', bridges, expandedTo[node := f.depth])
    ensures Expansion(Inbound, b.edges[|base.edges|..], b'.edges[|base.edges|..], node, f.depth, pushed)
    ensures Links(Inbound, b'.edges[|base.edges|..], node, f.ends)
  {
    var edges, edges' := b.edges[|base.edges|..], b'.edges[|base.edges|..];
    assert Phase(c, base, b', seen') && Extends(b, b') && Expansion(Inbound, b.edges, b'.edges, node, f.depth, pushed);
    assert base.edges <= b.edges && bridges <= |edges| && Extends(base, b);
    assert forall t: nat :: (t, node) in seen' <==> t in f.ends;
    SliceExpansion(Inbound, base.edges, b.edges, b'.edges, node, f.depth, pushed);
    ExtendsTwice(base, b, b');
    assert NewAmong(b, b', f.ends) && AllTouched(b) && b.edges <= b'.edges;
    hide Trusting, Extends, Bridged;
    PhaseLinks(c, base, b', seen', node, f.ends);
    LinksTouch(base, b, b', f.node, f.ends);
    hide Phase, AllTouched, NewAmong;
    SlicesKeep(edges, edges', bridges, expandedTo, node, f.depth, pushed);
    hide Expansion, Links;
    BridgedStays(c, b, b', Elements(edges[..bridges]), draws, nInbound);
  }

  lemma LinksTouch(base: Build, b: Build, b': Build, node: nat, ends: set<nat>)
    requires AllTouched(b) && b.edges <= b'.edges && NewAmong(b, b', ends) && |base.edges| <= |b'.edges|
    requires Links(Inbound, b'.edges[|base.edges|..], node, ends)
    ensures AllTouched(b')
  {
    var tail := b'.edges[|base.edges|..];
    forall t: nat | t in ends ensures Inbound.Edge(node, t) in b'.edges {
      assert Inbound.Edge(node, t) in tail;
    }
    hide Links;
    TouchedNext(b, b', Inbound, node, ends);
  }

  lemma PhaseLinks(c: Config, base: Build, b: Build, seen: set<Edge>, node: nat, ends: set<nat>)
    requires Phase(c, base, b, seen) && forall t: nat :: (t, node) in seen <==> t in ends
    ensures Links(Inbound, b.edges[|base.edges|..], node, ends)
  {
    forall t: nat ensures Inbound.Edge(node, t) in b.edges[|base.edges|..] <==> t in ends {
      assert (t, node) in seen <==> (t, node) in b.edges[|base.edges|..];
    }
  }

  lemma SlicesKeep(edges: seq<Edge>, edges': seq<Edge>, bridges: nat, expandedTo: map<nat, nat>, node: nat, depth: nat,
                   pushed: seq<(nat, nat)>)
    requires Expansion(Inbound, edges, edges', node, depth, pushed) && bridges <= |edges|
    requires forall k :: bridges <= k < |edges| ==> edges[k].1 in expandedTo
    ensures edges'[..bridges] == edges[..bridges]
    ensures forall k :: bridges <= k < |edges'| ==> edges'[k].1 in expandedTo[node := depth]
  {
    forall k | bridges <= k < |edges'| ensures edges'[k].1 in expandedTo[node := depth] {
      if k < |edges| { assert edges'[k] == edges[k]; } else { assert Inbound.Near(edges'[k]) == node; }
    }
  }

  lemma FreshTarget(c: Config, base: Build, b: Build, seen: set<Edge>, expandedTo: map<nat, nat>, node: nat)
    requires Phase(c, base, b, seen) && node >= c.nLocal && node !in expandedTo
    requires var edges := b.edges[|base.edges|..];
             forall k :: 0 <= k < |edges| && Inbound.Near(edges[k]) >= c.nLocal ==> Inbound.Near(edges[k]) in expandedTo
    ensures forall e :: e in seen ==> e.1 != node
  {
    var edges := b.edges[|base.edges|..];
    forall e | e in seen ensures e.1 != node {
      var k :| 0 <= k < |edges| && edges[k] == e;
      assert Inbound.Near(edges[k]) == e.1;
    }
  }

  /** The state of draining the inbound queue. */
  ghost predicate Inbounding(c: Config, nInbound: nat, draws: seq<nat>, base: Build, b: Build, seen: set<Edge>,
                             bridges: nat, queue: seq<(nat, nat)>, expandedTo: map<nat, nat>, fans: seq<Fanout>,
                             streams: seq<seq<nat>>, rest: seq<nat>) {
    && c.Valid() && |base.edges| <= |b.edges| && Receiving(c, nInbound, draws, base, b, seen, bridges, expandedTo)
    && Working(c, Inbound, b, b.edges[|base.edges|..], queue, expandedTo, fans, streams)
    && |streams| == |fans| + 1 && streams[0] == BridgesRest(c, draws, nInbound) && streams[|fans|] == rest
  }

  lemma InboundBegins(c: Config, nInbound: nat, draws: seq<nat>, base: Build, b: Build, seen: set<Edge>,
                      queue: seq<(nat, nat)>, rest: seq<nat>)
    requires WellFormed(c, base) && AllTouched(base) && Bridging(c, base, b, seen, queue, draws, nInbound)
    requires c.Valid() && rest == BridgesRest(c, draws, nInbound)
    ensures |base.edges| <= |b.edges|
    ensures Inbounding(c, nInbound, draws, base, b, seen, |b.edges| - |base.edges|, queue, map[], [], [rest], rest)
  {
    BridgingLonger(c, base, b, seen, queue, draws, nInbound);
    hide Bridging, AllTouched, WellFormed, BridgesRest, Working, Receiving;
    InboundStarts(c, nInbound, draws, base, b, seen, queue, rest);
    var edges := b.edges[|base.edges|..];
    assert |edges| == |b.edges| - |base.edges|;
  }

  lemma BridgingLonger(c: Config, base: Build, b: Build, seen: set<Edge>, queue: seq<(nat, nat)>, draws: seq<nat>,
                       n: nat)
    requires Bridging(c, base, b, seen, queue, draws, n)
    ensures |base.edges| <= |b.edges|
  {}

  /** What the head of the queue promises. */
  lemma InboundHead(c: Config, nInbound: nat, draws: seq<nat>, base: Build, b: Build, seen: set<Edge>, bridges: nat,
                    queue: seq<(nat, nat)>, expandedTo: map<nat, nat>, fans: seq<Fanout>, streams: seq<seq<nat>>,
                    rest: seq<nat>)
    requires Inbounding(c, nInbound, draws, base, b, seen, bridges, queue, expandedTo, fans, streams, rest)
    requires queue != []
    ensures var (node, depth) := queue[0];
            && ((if node in expandedTo then expandedTo[node] else 0) >= depth <==> node in expandedTo)
            && node >= c.nLocal && (node !in expandedTo ==> InboundReady(c, base, b, seen, node, depth))
  {
    hide Working, Receiving;
    WorkFacts(c, Inbound, b, b.edges[|base.edges|..], queue, expandedTo, fans, streams);
    ReceivingFacts(c, nInbound, draws, base, b, seen, bridges, expandedTo);
    hide Phase;
    if queue[0].0 !in expandedTo { FreshTarget(c, base, b, seen, expandedTo, queue[0].0); }
  }

  lemma InboundSkips(c: Config, nInbound: nat, draws: seq<nat>, base: Build, b: Build, seen: set<Edge>, bridges: nat,
                     queue: seq<(nat, nat)>, expandedTo: map<nat, nat>, fans: seq<Fanout>, streams: seq<seq<nat>>,
                     rest: seq<nat>)
    requires Inbounding(c, nInbound, draws, base, b, seen, bridges, queue, expandedTo, fans, streams, rest)
    requires queue != [] && queue[0].0 in expandedTo && expandedTo[queue[0].0] >= queue[0].1
    ensures Inbounding(c, nInbound, draws, base, b, seen, bridges, queue[1..], expandedTo, fans, streams, rest)
    ensures Deep(queue[1..]) <= Deep(queue)
  {
    hide Working, Receiving, Deep;
    WorkSkips(c, Inbound, b, b.edges[|base.edges|..], queue, expandedTo, fans, streams);
  }

  /** The whole inbound phase. */
  ghost predicate Received(c: Config, nInbound: nat, draws: seq<nat>, base: Build, b: Build, bridges: nat,
                           fans: seq<Fanout>, streams: seq<seq<nat>>, expandedTo: map<nat, nat>) {
    && WellFormed(c, b) && Extends(base, b) && base.edges <= b.edges && AllTouched(b)
    && InboundGraph(c, nInbound, draws, b, b.edges[|base.edges|..], bridges, fans, streams, expandedTo)
    && forall k :: |base.edges| <= k < |b.edges| ==> b.edges[k].0 >= c.nLocal
  }

  lemma ValidConfig(c: Config, b: Build)
    requires WellFormed(c, b)
    ensures c.Valid()
  {}

  /** One iteration of the inbound loop: skip the head of the queue, or expand it. */
  method InboundStep(c: Config, ghost nInbound: nat, ghost draws: seq<nat>, ghost base: Build, b: Build,
                     seen: set<Edge>, ghost bridges: nat, queue: seq<(nat, nat)>, expandedTo: map<nat, nat>,
                     ghost fans: seq<Fanout>, ghost streams: seq<seq<nat>>, rest: seq<nat>)
    returns (b': Build, seen': set<Edge>, queue': seq<(nat, nat)>, expandedTo': map<nat, nat>, rest': seq<nat>,
             ghost fans': seq<Fanout>, ghost streams': seq<seq<nat>>)
    requires Inbounding(c, nInbound, draws, base, b, seen, bridges, queue, expandedTo, fans, streams, rest)
    requires queue != []
    ensures Inbounding(c, nInbound, draws, base, b', seen', bridges, queue', expandedTo', fans', streams', rest')
    ensures Deep(queue') < Deep(queue) || (Deep(queue') == Deep(queue) && |queue'| < |queue|)
  {
    hide *;
    var (node, depthRemaining) := queue[0];
    InboundHead(c, nInbound, draws, base, b, seen, bridges, queue, expandedTo, fans, streams, rest);
    var alreadyAt := if node in expandedTo then expandedTo[node] else 0;
    if alreadyAt >= depthRemaining {
      InboundSkips(c, nInbound, draws, base, b, seen, bridges, queue, expandedTo, fans, streams, rest);
      return b, seen, queue[1..], expandedTo, rest, fans, streams;
    }
    ghost var f, d;
    var pushed;
    b', seen', rest', pushed, f, d := ExpandInbound(c, base, b, node, depthRemaining, seen, rest);
    InboundNext(c, nInbound, draws, base, b, b', seen, seen', bridges, queue, expandedTo, fans, streams, rest, d, f,
                pushed, rest');
    expandedTo' := expandedTo[node := depthRemaining];
    fans', streams' := fans + [f], streams + [rest'];
    queue' := queue[1..] + pushed;
  }

  /** Steps 4b and 4c: bridges into the home instance and two inbound levels behind them. */
  method GenerateInbound(c: Config, b: Build, nInbound: nat, draws: seq<nat>)
    returns (b': Build, rest: seq<nat>, ghost bridges: nat, ghost fans: seq<Fanout>, ghost streams: seq<seq<nat>>,
             ghost expandedTo: map<nat, nat>)
    requires WellFormed(c, b) && AllTouched(b)
    ensures Received(c, nInbound, draws, b, b', bridges, fans, streams, expandedTo)
  {
    hide *;
    ValidConfig(c, b);
    var queue, seen;
    b', queue, seen, rest := AddBridges(c, b, nInbound, draws);
    InboundBegins(c, nInbound, draws, b, b', seen, queue, rest);
    var expandedAt: map<nat, nat> := map[];
    fans, streams, bridges := [], [rest], |b'.edges| - |b.edges|;
    while queue != []
      invariant Inbounding(c, nInbound, draws, b, b', seen, bridges, queue, expandedAt, fans, streams, rest)
      decreases Deep(queue), |queue|
    {
      b', seen, queue, expandedAt, rest, fans, streams :=
        InboundStep(c, nInbound, draws, b, b', seen, bridges, queue, expandedAt, fans, streams, rest);
    }
    expandedTo := expandedAt;
    InboundDone(c, nInbound, draws, b, b', seen, bridges, fans, streams, expandedTo, rest);
  }

  lemma InboundNext(c: Config, nInbound: nat, draws: seq<nat>, base: Build, b: Build, b': Build, seen: set<Edge>,
                    seen': set<Edge>, bridges: nat, queue: seq<(nat, nat)>, expandedTo: map<nat, nat>,
                    fans: seq<Fanout>, streams: seq<seq<nat>>, rest: seq<nat>, d: nat, f: Fanout,
                    pushed: seq<(nat, nat)>, after: seq<nat>)
    requires Inbounding(c, nInbound, draws, base, b, seen, bridges, queue, expandedTo, fans, streams, rest)
    requires queue != [] && queue[0].0 !in expandedTo && queue[0].0 >= c.nLocal
    requires InboundExpanded(c, base, b, b', seen', queue[0].0, queue[0].1, d, f, pushed, rest, after)
    ensures Inbounding(c, nInbound, draws, base, b', seen', bridges, queue[1..] + pushed,
                       expandedTo[queue[0].0 := queue[0].1], fans + [f], streams + [after], after)
    ensures Deep(queue[1..] + pushed) < Deep(queue)
              || (Deep(queue[1..] + pushed) == Deep(queue) && |queue[1..] + pushed| < |queue|)
  {
    hide Working, Receiving, Deep, FanoutFrom, Trusting, BridgesRest;
    InboundAdvances(c, nInbound, draws, base, b, b', seen, seen', bridges, queue, expandedTo, fans, streams, d, f,
        pushed,
                    after);
  }

  lemma InboundAdvances(c: Config, nInbound: nat, draws: seq<nat>, base: Build, b: Build, b': Build, seen: set<Edge>,
                        seen': set<Edge>, bridges: nat, queue: seq<(nat, nat)>, expandedTo: map<nat, nat>,
                        fans: seq<Fanout>, streams: seq<seq<nat>>, d: nat, f: Fanout, pushed: seq<(nat, nat)>,
                        after: seq<nat>)
    requires |base.edges| <= |b.edges| && Receiving(c, nInbound, draws, base, b, seen, bridges, expandedTo)
    requires Working(c, Inbound, b, b.edges[|base.edges|..], queue, expandedTo, fans, streams)
    requires queue != [] && queue[0] == (f.node, f.depth) && f.node !in expandedTo && f.node >= c.nLocal
    requires |streams| == |fans| + 1 && FanoutFrom(c, b', f, streams[|fans|], after)
    requires Trusting(c, base, b, b', seen', d, f, pushed)
    ensures |base.edges| <= |b'.edges|
    ensures Receiving(c, nInbound, draws, base, b', seen', bridges, expandedTo[f.node := f.depth])
    ensures Working(c, Inbound, b', b'.edges[|base.edges|..], queue[1..] + pushed, expandedTo[f.node := f.depth],
                    fans + [f], streams + [after])
    ensures Deep(queue[1..] + pushed) < Deep(queue)
              || (Deep(queue[1..] + pushed) == Deep(queue) && |queue[1..] + pushed| < |queue|)
  {
    hide *;
    TrustedFacts(c, base, b, b', seen', f.node, d, f, pushed);
    InboundKeeps(c, nInbound, draws, base, b, seen, bridges, expandedTo, f.node, d, b', seen', f, pushed);
    ReceivingFacts(c, nInbound, draws, base, b', seen', bridges, expandedTo[f.node := f.depth]);
    WorkAdvances(c, Inbound, b, b', b.edges[|base.edges|..], b'.edges[|base.edges|..], queue, expandedTo, fans, streams,
                 f, pushed, after);
  }

  lemma ReceivingFacts(c: Config, nInbound: nat, draws: seq<nat>, base: Build, b: Build, seen: set<Edge>, bridges: nat,
                       expandedTo: map<nat, nat>)
    requires Receiving(c, nInbound, draws, base, b, seen, bridges, expandedTo)
    ensures Phase(c, base, b, seen) && |base.edges| <= |b.edges|
  {}

  lemma TrustedFacts(c: Config, base: Build, start: Build, b: Build, seen: set<Edge>, node: nat, d: nat, f: Fanout,
                     pushed: seq<(nat, nat)>)
    requires Trusting(c, base, start, b, seen, d, f, pushed) && f.node == node
    ensures WellFormed(c, b) && Extends(start, b) && f.node == node
    ensures OnlyDepth(pushed, 1) && Queued(b, pushed) && (f.depth == 1 ==> pushed == []) && PushedFrom(f, pushed)
  {}

  lemma InboundDone(c: Config, nInbound: nat, draws: seq<nat>, base: Build, b: Build, seen: set<Edge>, bridges: nat,
                    fans: seq<Fanout>, streams: seq<seq<nat>>, expandedTo: map<nat, nat>, rest: seq<nat>)
    requires Inbounding(c, nInbound, draws, base, b, seen, bridges, [], expandedTo, fans, streams, rest)
    ensures Received(c, nInbound, draws, base, b, bridges, fans, streams, expandedTo)
  {
    hide Worked, Working, Phase, Bridged, AllTouched, BridgesRest;
    WorkDone(c, Inbound, b, b.edges[|base.edges|..], expandedTo, fans, streams);
    RemoteSources(c, base, b, seen);
    assert Received(c, nInbound, draws, base, b, bridges, fans, streams, expandedTo) by { hide Extends, Receiving; }
  }

  lemma RemoteSources(c: Config, base: Build, b: Build, seen: set<Edge>)
    requires Phase(c, base, b, seen)
    ensures WellFormed(c, b) && base.edges <= b.edges && NoRepeats(b.edges[|base.edges|..])
    ensures forall k :: |base.edges| <= k < |b.edges| ==> b.edges[k].0 >= c.nLocal
  {
    var edges := b.edges[|base.edges|..];
    forall k | |base.edges| <= k < |b.edges| ensures b.edges[k].0 >= c.nLocal {
      assert b.edges[k] == edges[k - |base.edges|];
      assert edges[k - |base.edges|] in seen;
    }
  }

  lemma {:induction false} LoopFreeRow(n: nat, edges: seq<Edge>, i: nat)
    requires GoodEdges(n, edges)
    ensures i !in Row(edges, i)
  {
    if edges != [] { LoopFreeRow(n, edges[..|edges| - 1], i); }
  }

  /** How the whole graph came about. */
  datatype Run = Run(b: Build, forward: nat, logs: seq<HomeLog>, homeStreams: seq<seq<nat>>, outFans: seq<Fanout>,
                     outStreams: seq<seq<nat>>, outDepth: map<nat, nat>, bridges: nat, inFans: seq<Fanout>,
                     inStreams: seq<seq<nat>>, inDepth: map<nat, nat>)

  /** The graph is the one the draws describe: home edges and what lies behind them, then bridges and what lies behind
      those. */
  ghost predicate Generated(c: Config, outDegrees: seq<nat>, nInbound: nat, draws: seq<nat>, numNodes: nat,
                            edges: seq<Edge>, run: Run) {
    && Bijection(c, run.b) && AllTouched(run.b)
    && run.b.nextNodeId == numNodes && run.b.edges == edges && run.forward <= |edges|
    && ForwardGraph(c, outDegrees, draws, run.b, edges[..run.forward], run.logs, run.homeStreams, run.outFans,
                    run.outStreams, run.outDepth)
    && |run.outStreams| > 0
    && (nInbound == 0 ==> run.forward == |edges|)
    && (nInbound > 0 ==>
          InboundGraph(c, nInbound, run.outStreams[|run.outStreams| - 1], run.b, edges[run.forward..], run.bridges,
                       run.inFans, run.inStreams, run.inDepth))
  }

  lemma ForwardGraphStays(c: Config, outDegrees: seq<nat>, draws: seq<nat>, b: Build, b': Build, edges: seq<Edge>,
                          logs: seq<HomeLog>, homeStreams: seq<seq<nat>>, fans: seq<Fanout>, streams: seq<seq<nat>>,
                          expandedTo: map<nat, nat>)
    requires ForwardGraph(c, outDegrees, draws, b, edges, logs, homeStreams, fans, streams, expandedTo)
    requires Bijection(c, b) && Bijection(c, b') && Extends(b, b')
    ensures ForwardGraph(c, outDegrees, draws, b', edges, logs, homeStreams, fans, streams, expandedTo)
  {
    hide HomeRun, Worked, HomeDegrees, Bijection, Extends, NoRepeats;
    HomeRunStays(c, outDegrees, c.nLocal, b, b', edges, edges, logs, homeStreams, c.nLocal);
    RunLengths(c, outDegrees, c.nLocal, b', edges, logs, homeStreams);
    WorkedStays(c, Outbound, b, b', edges, expandedTo, fans, streams);
  }

  lemma SimpleGraph(c: Config, b: Build)
    requires WellFormed(c, b)
    ensures c.nLocal <= b.nextNodeId && EndpointsBelow(b.nextNodeId, b.edges)
    ensures Closed(RowsOf(b.nextNodeId, b.edges)) && LoopFree(RowsOf(b.nextNodeId, b.edges))
  {
    RowsClosed(b.nextNodeId, b.edges);
    forall i | 0 <= i < b.nextNodeId ensures i !in RowsOf(b.nextNodeId, b.edges)[i] {
      LoopFreeRow(b.nextNodeId, b.edges, i);
    }
  }

  /** Whatever is drawn, the generated graph is the one the draws describe, home users have their drawn out-degrees, and
      the graph meets the conditions under which both searches agree. */
  method Generate(c: Config, outDegrees: seq<nat>, nInbound: nat, draws: seq<nat>)
    returns (numNodes: nat, edges: seq<Edge>, ghost run: Run)
    requires c.Valid() && |outDegrees| == c.nLocal
    ensures c.nLocal <= numNodes && EndpointsBelow(numNodes, edges)
    ensures Closed(RowsOf(numNodes, edges)) && LoopFree(RowsOf(numNodes, edges))
    ensures Generated(c, outDegrees, nInbound, draws, numNodes, edges, run)
    ensures HomeDegrees(outDegrees, c.nLocal, edges, run.outStreams[0] != [])
  {
    var b, rest;
    ghost var logs, homeStreams, fans, streams, expandedTo;
    b, rest, logs, homeStreams, fans, streams, expandedTo := GenerateForward(c, outDegrees, draws);
    run := Run(b, |b.edges|, logs, homeStreams, fans, streams, expandedTo, 0, [], [], map[]);
    ghost var before := b;
    assert Bijection(c, b) && b.edges[..|b.edges|] == b.edges;
    assert HomeDegrees(outDegrees, c.nLocal, b.edges, streams[0] != []);
    assert Generated(c, outDegrees, 0, draws, b.nextNodeId, b.edges, run);
    if nInbound > 0 {
      ghost var bridges, inFans, inStreams, inDepth;
      b, rest, bridges, inFans, inStreams, inDepth := GenerateInbound(c, b, nInbound, rest);
      run := Run(b, |before.edges|, logs, homeStreams, fans, streams, expandedTo, bridges, inFans, inStreams, inDepth);
      assert Bijection(c, b) && Extends(before, b) && before.edges <= b.edges && AllTouched(b);
      assert b.edges[..|before.edges|] == before.edges;
      hide Received, ForwardGraph, InboundGraph, HomeDegrees, Bijection, Extends, WellFormed, AllTouched;
      ForwardGraphStays(c, outDegrees, draws, before, b, before.edges, logs, homeStreams, fans, streams, expandedTo);
      DegreesKept(outDegrees, before.edges, b.edges, streams[0] != []);
    }
    hide *;
    SimpleGraph(c, b);
    numNodes, edges := b.nextNodeId, b.edges;
  }
}
