/** What a stream of random draws means for the generated graph: whom it names, and where each reading of it stops. */
module GeneratorDraws {
  import opened Csr
  import opened Sorting

  /** A remote user's home: instance and popularity rank. */
  type Location = (nat, nat)

  /** Sizes of the home instance and of the remote ones, and the out-degrees of the three tiers. */
  datatype Config = Config(nLocal: nat, sizes: seq<nat>, power: nat, active: nat, lurker: nat) {
    predicate Valid() {
      nLocal > 0 && sizes != [] && forall i :: 0 <= i < |sizes| ==> sizes[i] >= 1
    }

    predicate Exists(at: Location) {
      at.0 < |sizes| && 1 <= at.1 <= sizes[at.0]
    }
  }

  /** The graph under construction. */
  datatype Build = Build(edges: seq<Edge>, nextNodeId: nat, remoteNodeMap: map<Location, nat>,
                         nodeToLoc: map<nat, Location>)

  // ----- random draws -----

  /** The next draw below `bound`, and the rest of the stream; an exhausted stream yields zeros. */
  function Draw(rest: seq<nat>, bound: nat): (r: (nat, seq<nat>))
    requires bound > 0
    ensures r.0 < bound && (rest != [] ==> |r.1| < |rest|) && |r.1| <= |rest|
  {
    if rest == [] then (0, []) else (rest[0] % bound, rest[1..])
  }

  // ----- what every step keeps -----

  /** Remote ids and locations are in bijection, and ids are dense above the local ones. */
  ghost predicate Bijection(c: Config, b: Build) {
    && c.nLocal <= b.nextNodeId
    && (forall id :: id in b.nodeToLoc <==> c.nLocal <= id < b.nextNodeId)
    && (forall id :: id in b.nodeToLoc ==>
          c.Exists(b.nodeToLoc[id]) && b.nodeToLoc[id] in b.remoteNodeMap && b.remoteNodeMap[b.nodeToLoc[id]] == id)
    && (forall at :: at in b.remoteNodeMap ==>
          b.remoteNodeMap[at] in b.nodeToLoc && b.nodeToLoc[b.remoteNodeMap[at]] == at)
  }

  ghost predicate GoodEdges(n: nat, edges: seq<Edge>) {
    forall k :: 0 <= k < |edges| ==> edges[k].0 < n && edges[k].1 < n && edges[k].0 != edges[k].1
  }

  ghost predicate WellFormed(c: Config, b: Build) {
    c.Valid() && Bijection(c, b) && GoodEdges(b.nextNodeId, b.edges)
  }

  /** Nodes are only ever added. */
  ghost predicate Extends(b: Build, b': Build) {
    && b.nextNodeId <= b'.nextNodeId
    && forall id :: id in b.nodeToLoc ==> id in b'.nodeToLoc && b'.nodeToLoc[id] == b.nodeToLoc[id]
  }

  function TierDegree(c: Config, tier: nat): nat {
    if tier == 0 then c.power else if tier == 1 then c.active else c.lurker
  }

  /** Attempts allowed for `d` targets. */
  function Cap(d: nat): nat {
    if d * 20 > 64 then d * 20 else 64
  }

  // ----- a remote user's colleagues -----

  /** The rank a draw names on an instance of this size. */
  function RankOf(x: nat, size: nat): nat
    requires size > 0
  {
    x % size + 1
  }

  /** The ranks named by the draws, except the node's own. */
  ghost function Ranks(drawn: seq<nat>, size: nat, own: nat): set<nat>
    requires size > 0
  {
    set k: nat | k < |drawn| && RankOf(drawn[k], size) != own :: RankOf(drawn[k], size)
  }

  lemma RanksSnoc(drawn: seq<nat>, x: nat, size: nat, own: nat)
    requires size > 0
    ensures Ranks(drawn + [x], size, own) == Ranks(drawn, size, own) + if RankOf(x, size)
              == own then {} else {RankOf(x, size)}
  {
    hide RankOf;
    var more, rank := drawn + [x], RankOf(x, size);
    assert more[|drawn|] == x;
    forall r ensures r in Ranks(more, size, own) <==> r in Ranks(drawn, size, own) || (r == rank && rank != own) {
      if r in Ranks(drawn, size, own) {
        var k: nat :| k < |drawn| && RankOf(drawn[k], size) != own && r == RankOf(drawn[k], size);
        assert more[k] == drawn[k];
      }
      if r in Ranks(more, size, own) {
        var k: nat :| k < |more| && RankOf(more[k], size) != own && r == RankOf(more[k], size);
        if k < |drawn| { assert more[k] == drawn[k]; }
      }
    }
  }

  ghost function Places(b: Build, ids: set<nat>): set<Location> {
    set t | t in ids && t in b.nodeToLoc :: b.nodeToLoc[t]
  }

  ghost function InInstance(inst: nat, ranks: set<nat>): set<Location> {
    set r | r in ranks :: (inst, r)
  }

  /** `ends` are exactly the users of the instance whose ranks were drawn. Drawing went on while there were fewer than
      `d` of them, for at most `Cap(d)` draws. */
  ghost predicate Sampled(c: Config, b: Build, inst: nat, own: nat, d: nat, drawn: seq<nat>, ends: set<nat>) {
    && inst < |c.sizes| && c.sizes[inst] > 0
    && (forall t :: t in ends ==> t in b.nodeToLoc)
    && Places(b, ends) == InInstance(inst, Ranks(drawn, c.sizes[inst], own))
    && |ends| == |Ranks(drawn, c.sizes[inst], own)| <= d
    && |drawn| <= Cap(d)
    && (drawn != [] ==> |Ranks(drawn[..|drawn| - 1], c.sizes[inst], own)| < d)
  }

  lemma SampleNothing(c: Config, b: Build, inst: nat, own: nat, d: nat)
    requires inst < |c.sizes| && c.sizes[inst] > 0
    ensures Sampled(c, b, inst, own, d, [], {})
  {
    assert Ranks([], c.sizes[inst], own) == {};
  }

  /** Drawing the node itself changes nothing. */
  lemma SampleOwn(c: Config, b: Build, inst: nat, own: nat, d: nat, drawn: seq<nat>, ends: set<nat>, x: nat)
    requires Sampled(c, b, inst, own, d, drawn, ends) && |ends| < d && |drawn| < Cap(d)
    requires RankOf(x, c.sizes[inst]) == own
    ensures Sampled(c, b, inst, own, d, drawn + [x], ends)
  {
    RanksSnoc(drawn, x, c.sizes[inst], own);
    assert (drawn + [x])[..|drawn|] == drawn;
    hide Ranks, RankOf;
  }

  lemma PlacesStay(b: Build, b': Build, ids: set<nat>)
    requires Extends(b, b') && forall t :: t in ids ==> t in b.nodeToLoc
    ensures Places(b', ids) == Places(b, ids)
  {
    assert forall t :: t in ids ==> b'.nodeToLoc[t] == b.nodeToLoc[t];
  }

  /** Drawing another user adds exactly that user. */
  lemma SampleHit(c: Config, b: Build, b': Build, inst: nat, own: nat, d: nat, drawn: seq<nat>, ends: set<nat>, x: nat,
                  id: nat)
    requires Sampled(c, b, inst, own, d, drawn, ends) && |ends| < d && |drawn| < Cap(d)
    requires Bijection(c, b') && Extends(b, b') && RankOf(x, c.sizes[inst]) != own
    requires id in b'.nodeToLoc && b'.nodeToLoc[id] == (inst, RankOf(x, c.sizes[inst]))
    ensures Sampled(c, b', inst, own, d, drawn + [x], ends + {id})
  {
    var size, rank := c.sizes[inst], RankOf(x, c.sizes[inst]);
    var ranks := Ranks(drawn, size, own);
    assert (drawn + [x])[..|drawn|] == drawn;
    assert forall t :: t in ends ==> t in b'.nodeToLoc;
    hide Ranks, Bijection, Places, InInstance, Extends, Cap, RankOf;
    PlacesStay(b, b', ends);
    RanksSnoc(drawn, x, size, own);
    HostOne(c, b', inst, ranks, ends, id, rank);
  }

  lemma HostOne(c: Config, b: Build, inst: nat, ranks: set<nat>, ends: set<nat>, id: nat, rank: nat)
    requires Bijection(c, b) && Places(b, ends) == InInstance(inst, ranks) && |ends| == |ranks|
    requires id in b.nodeToLoc && b.nodeToLoc[id] == (inst, rank)
    ensures Places(b, ends + {id}) == InInstance(inst, ranks + {rank})
    ensures |ends + {id}| == |ranks + {rank}| <= |ends| + 1
  {
    HitTwice(c, b, inst, ranks, ends, id);
    PlaceOne(b, ends, id);
    assert InInstance(inst, ranks + {rank}) == InInstance(inst, ranks) + {(inst, rank)};
    if rank in ranks { assert ends + {id} == ends && ranks + {rank} == ranks; }
  }

  lemma PlaceOne(b: Build, ends: set<nat>, id: nat)
    requires id in b.nodeToLoc
    ensures Places(b, ends + {id}) == Places(b, ends) + {b.nodeToLoc[id]}
  {}

  lemma HitTwice(c: Config, b: Build, inst: nat, ranks: set<nat>, ends: set<nat>, id: nat)
    requires Bijection(c, b) && Places(b, ends) == InInstance(inst, ranks)
    requires id in b.nodeToLoc && b.nodeToLoc[id].0 == inst
    ensures id in ends <==> b.nodeToLoc[id].1 in ranks
  {
    var at := b.nodeToLoc[id];
    if id in ends { assert at in Places(b, ends); }
    if at.1 in ranks {
      assert at in InInstance(inst, ranks);
      var t :| t in ends && t in b.nodeToLoc && b.nodeToLoc[t] == at;
      assert b.remoteNodeMap[at] == t == id;
    }
  }

  lemma SampledStays(c: Config, b: Build, b': Build, inst: nat, own: nat, d: nat, drawn: seq<nat>, ends: set<nat>)
    requires Sampled(c, b, inst, own, d, drawn, ends) && Extends(b, b')
    ensures Sampled(c, b', inst, own, d, drawn, ends)
  {
    PlacesStay(b, b', ends);
  }

  /** The node is not among its own colleagues. */
  lemma SampledOthers(c: Config, b: Build, node: nat, d: nat, drawn: seq<nat>, ends: set<nat>)
    requires node in b.nodeToLoc && Sampled(c, b, b.nodeToLoc[node].0, b.nodeToLoc[node].1, d, drawn, ends)
    ensures node !in ends
  {
    var (inst, own) := b.nodeToLoc[node];
    var ranks := Ranks(drawn, c.sizes[inst], own);
    assert own !in ranks;
    assert node in ends ==> (inst, own) in Places(b, ends);
    assert (inst, own) in InInstance(inst, ranks) ==> own in ranks;
  }

  /** One expansion: the node, its remaining depth, the ranks drawn and the users found. */
  datatype Fanout = Fanout(node: nat, depth: nat, drawn: seq<nat>, ends: set<nat>)

  /** What an expansion reads from the stream: a tier, then ranks until the tier's degree, the attempts or the draws
      are used up. A user alone on its instance draws no ranks. */
  ghost predicate FanoutFrom(c: Config, b: Build, f: Fanout, before: seq<nat>, after: seq<nat>) {
    && f.node in b.nodeToLoc && b.nodeToLoc[f.node].0 < |c.sizes|
    && var (tier, rest) := Draw(before, 3);
    && var ((inst, own), d) := (b.nodeToLoc[f.node], TierDegree(c, tier));
    && rest == f.drawn + after
    && if c.sizes[inst] <= 1 then f.drawn == [] && f.ends == {}
       else Sampled(c, b, inst, own, d, f.drawn, f.ends) && (|f.ends| == d || |f.drawn| == Cap(d) || after == [])
  }

  lemma FanoutStays(c: Config, b: Build, b': Build, f: Fanout, before: seq<nat>, after: seq<nat>)
    requires FanoutFrom(c, b, f, before, after) && Extends(b, b')
    ensures FanoutFrom(c, b', f, before, after)
  {
    var (tier, _) := Draw(before, 3);
    var (inst, own) := b.nodeToLoc[f.node];
    if c.sizes[inst] > 1 { SampledStays(c, b, b', inst, own, TierDegree(c, tier), f.drawn, f.ends); }
  }

  // ----- a home user's targets -----

  /** A home user or a remote one. */
  datatype Person = Nearby(user: nat) | Faraway(at: Location)

  /** One attempt: a home user, or an instance and a rank there; and the rest of the stream. */
  function ReadPick(c: Config, rest: seq<nat>): (r: (Person, seq<nat>))
    requires c.Valid()
    ensures r.0.Nearby? ==> r.0.user < c.nLocal
    ensures r.0.Faraway? ==> c.Exists(r.0.at)
  {
    var (far, r0) := Draw(rest, 2);
    if far == 0 then
      var (user, r1) := Draw(r0, c.nLocal);
      (Nearby(user), r1)
    else
      var (inst, r1) := Draw(r0, |c.sizes|);
      var (rank, r2) := Draw(r1, c.sizes[inst]);
      (Faraway((inst, rank + 1)), r2)
  }

  function PicksRest(c: Config, before: seq<nat>, n: nat): seq<nat>
    requires c.Valid()
  {
    if n == 0 then before else ReadPick(c, PicksRest(c, before, n - 1)).1
  }

  function PickAt(c: Config, before: seq<nat>, k: nat): Person
    requires c.Valid()
  {
    ReadPick(c, PicksRest(c, before, k)).0
  }

  /** Everyone named by the first `n` attempts, except the user itself. */
  ghost function Picked(c: Config, before: seq<nat>, n: nat, user: nat): set<Person>
    requires c.Valid()
  {
    set k: nat | k < n && PickAt(c, before, k) != Nearby(user) :: PickAt(c, before, k)
  }

  lemma PickedNext(c: Config, before: seq<nat>, n: nat, user: nat)
    requires c.Valid()
    ensures var p := PickAt(c, before, n);
            Picked(c, before, n + 1, user) == Picked(c, before, n, user) + if p == Nearby(user) then {} else {p}
  {
    hide PickAt;
    var p := PickAt(c, before, n);
    forall q ensures q in Picked(c, before, n + 1, user) <==>
        q in Picked(c, before, n, user) || (q == p && p != Nearby(user)) {
      if q in Picked(c, before, n + 1, user) {
        var k: nat :| k < n + 1 && PickAt(c, before, k) != Nearby(user) && q == PickAt(c, before, k);
        if k < n { assert q in Picked(c, before, n, user); }
      }
    }
  }

  function PersonOf(b: Build, t: nat): Person {
    if t in b.nodeToLoc then Faraway(b.nodeToLoc[t]) else Nearby(t)
  }

  ghost function Persons(b: Build, ids: set<nat>): set<Person> {
    set t | t in ids :: PersonOf(b, t)
  }

  /** The targets after `n` attempts: exactly the persons named by the draws. Every attempt was due: there were draws
      left and fewer than `d` targets. */
  ghost predicate Reached(c: Config, b: Build, user: nat, d: nat, before: seq<nat>, n: nat, ids: set<nat>) {
    && c.Valid() && n <= Cap(d) && Due(c, before, n, user, d)
    && (forall t :: t in ids ==> t < b.nextNodeId && t != user)
    && Persons(b, ids) == Picked(c, before, n, user) && |ids| == |Picked(c, before, n, user)| <= d
  }

  ghost predicate Due(c: Config, before: seq<nat>, n: nat, user: nat, d: nat)
    requires c.Valid()
  {
    n > 0 ==> PicksRest(c, before, n - 1) != [] && |Picked(c, before, n - 1, user)| < d
  }

  lemma ReachNothing(c: Config, b: Build, user: nat, d: nat, before: seq<nat>)
    requires c.Valid()
    ensures Reached(c, b, user, d, before, 0, {})
  {
    assert Picked(c, before, 0, user) == {};
  }

  lemma PersonsStay(c: Config, b: Build, b': Build, ids: set<nat>)
    requires Bijection(c, b) && Bijection(c, b') && Extends(b, b') && forall t :: t in ids ==> t < b.nextNodeId
    ensures Persons(b', ids) == Persons(b, ids)
  {
    assert forall t :: t in ids ==> PersonOf(b', t) == PersonOf(b, t);
  }

  lemma ReachedStays(c: Config, b: Build, b': Build, user: nat, d: nat, before: seq<nat>, n: nat, ids: set<nat>)
    requires Bijection(c, b) && Bijection(c, b') && Extends(b, b') && Reached(c, b, user, d, before, n, ids)
    ensures Reached(c, b', user, d, before, n, ids)
  {
    PersonsStay(c, b, b', ids);
  }

  /** One more attempt names `id`. */
  lemma ReachOne(c: Config, b: Build, b': Build, user: nat, d: nat, before: seq<nat>, n: nat, ids: set<nat>, id: nat)
    requires Bijection(c, b) && Bijection(c, b') && Extends(b, b') && user < c.nLocal
    requires Reached(c, b, user, d, before, n, ids) && |ids| < d && n < Cap(d) && PicksRest(c, before, n) != []
    requires id < b'.nextNodeId && PersonOf(b', id) == PickAt(c, before, n)
    ensures Reached(c, b', user, d, before, n + 1, if id == user then ids else ids + {id})
  {
    hide *;
    ReachedStays(c, b, b', user, d, before, n, ids);
    ReachedParts(c, b', user, d, before, n, ids);
    PersonsDiffer(c, b', user, id);
    NamedTwice(c, b', ids, id);
    PickedNext(c, before, n, user);
    DueNext(c, before, n, user, d);
    PersonsOne(b', ids, id);
    var persons := Picked(c, before, n, user);
    OneMorePerson(persons, ids, PersonOf(b', id), id);
    if id == user {
      assert persons + {} == persons;
      ReachedMade(c, b', user, d, before, n + 1, ids);
    } else {
      ReachedMade(c, b', user, d, before, n + 1, ids + {id});
    }
  }

  lemma ReachedParts(c: Config, b: Build, user: nat, d: nat, before: seq<nat>, n: nat, ids: set<nat>)
    requires Reached(c, b, user, d, before, n, ids)
    ensures c.Valid() && n <= Cap(d) && Due(c, before, n, user, d)
    ensures forall t :: t in ids ==> t < b.nextNodeId && t != user
    ensures Persons(b, ids) == Picked(c, before, n, user) && |ids| == |Picked(c, before, n, user)| <= d
  {}

  lemma DueNext(c: Config, before: seq<nat>, n: nat, user: nat, d: nat)
    requires c.Valid() && PicksRest(c, before, n) != [] && |Picked(c, before, n, user)| < d
    ensures Due(c, before, n + 1, user, d)
  {
    hide PicksRest, Picked;
  }

  lemma OneMorePerson(persons: set<Person>, ids: set<nat>, p: Person, id: nat)
    requires |ids| == |persons| && (id in ids <==> p in persons)
    ensures |ids + {id}| == |persons + {p}| <= |ids| + 1
  {
    if id in ids { assert ids + {id} == ids && persons + {p} == persons; }
  }

  lemma NamedTwice(c: Config, b: Build, ids: set<nat>, id: nat)
    requires Bijection(c, b) && id < b.nextNodeId && forall t :: t in ids ==> t < b.nextNodeId
    ensures id in ids <==> PersonOf(b, id) in Persons(b, ids)
  {
    if PersonOf(b, id) in Persons(b, ids) {
      var t :| t in ids && PersonOf(b, t) == PersonOf(b, id);
      assert t == id;
    }
  }

  lemma ReachedMade(c: Config, b: Build, user: nat, d: nat, before: seq<nat>, n: nat, ids: set<nat>)
    requires c.Valid() && n <= Cap(d) && (forall t :: t in ids ==> t < b.nextNodeId && t != user)
    requires Due(c, before, n, user, d)
    requires Persons(b, ids) == Picked(c, before, n, user) && |ids| == |Picked(c, before, n, user)| <= d
    ensures Reached(c, b, user, d, before, n, ids)
  {}

  lemma PersonsDiffer(c: Config, b: Build, user: nat, id: nat)
    requires Bijection(c, b) && user < c.nLocal
    ensures PersonOf(b, id) == Nearby(user) <==> id == user
  {}

  lemma PersonsOne(b: Build, ids: set<nat>, id: nat)
    ensures Persons(b, ids + {id}) == Persons(b, ids) + {PersonOf(b, id)}
  {}

  /** What the uniform fallback makes of a stream: the targets and the draws left when it stops. */
  function Fallback(nLocal: nat, user: nat, d: nat, targets: set<nat>, rest: seq<nat>): (set<nat>, seq<nat>)
    requires nLocal > 0
    decreases |rest|
  {
    if |targets| >= d || rest == [] then (targets, rest)
    else
      var (t, r) := Draw(rest, nLocal);
      Fallback(nLocal, user, d, if t != user then targets + {t} else targets, r)
  }

  ghost function Others(nLocal: nat, user: nat): set<nat> {
    set t: nat | t < nLocal && OtherUser(nLocal, user, t)
  }

  predicate OtherUser(nLocal: nat, user: nat, t: nat) {
    t < nLocal && t != user
  }

  lemma {:induction false} FallbackWithin(nLocal: nat, user: nat, d: nat, targets: set<nat>, rest: seq<nat>)
    requires nLocal > 0
    ensures Fallback(nLocal, user, d, targets, rest).0 <= targets + Others(nLocal, user)
    decreases |rest|
  {
    if |targets| < d && rest != [] {
      var (t, r) := Draw(rest, nLocal);
      FallbackWithin(nLocal, user, d, if t != user then targets + {t} else targets, r);
    }
  }

  /** A fallback that runs out of draws has collected all of them. */
  lemma {:induction false} FallbackCollects(nLocal: nat, user: nat, d: nat, targets: set<nat>, rest: seq<nat>)
    requires nLocal > 0 && forall x :: x in rest ==> x < nLocal
    ensures var found := Fallback(nLocal, user, d, targets, rest).0;
            |found| >= d || (targets <= found && forall x :: x in rest && x != user ==> x in found)
    decreases |rest|
  {
    if |targets| < d && rest != [] {
      var first, r := rest[0], rest[1..];
      assert rest == [first] + r;
      assert Draw(rest, nLocal) == (first, r) by { assert first in rest; }
      forall x | x in r ensures x < nLocal { assert x in rest; }
      FallbackCollects(nLocal, user, d, if first != user then targets + {first} else targets, r);
    }
  }

  /** Some stream of draws lets the fallback finish exactly when the targets so far and the other home users together
      are enough. Otherwise it loops for ever on every stream. */
  lemma FallbackFinishesExact(nLocal: nat, user: nat, d: nat, targets: set<nat>)
    requires nLocal > 0
    ensures (exists rest :: |Fallback(nLocal, user, d, targets, rest).0| >= d)
              <==> |targets + Others(nLocal, user)| >= d
  {
    var all := targets + Others(nLocal, user);
    if rest :| |Fallback(nLocal, user, d, targets, rest).0| >= d {
      FallbackWithin(nLocal, user, d, targets, rest);
      SubsetSize(Fallback(nLocal, user, d, targets, rest).0, all);
    }
    if |all| >= d {
      var everyone := seq(nLocal, i requires 0 <= i < nLocal => i);
      FallbackCollects(nLocal, user, d, targets, everyone);
      var found := Fallback(nLocal, user, d, targets, everyone).0;
      if |found| < d {
        forall t | t in all ensures t in found {
          if t !in targets { assert everyone[t] == t; }
        }
        SubsetSize(all, found);
      }
      assert |Fallback(nLocal, user, d, targets, everyone).0| >= d;
    }
  }

  /** How a home user's targets came about. */
  datatype HomeLog = HomeLog(attempts: nat, reached: set<nat>, targets: set<nat>)

  /** Attempts until there are `d` targets, the attempts or the draws are used up; in the second case the uniform
      fallback takes over. */
  ghost predicate HomeFrom(c: Config, b: Build, user: nat, d: nat, log: HomeLog, before: seq<nat>, after: seq<nat>) {
    && Reached(c, b, user, d, before, log.attempts, log.reached)
    && var mid := PicksRest(c, before, log.attempts);
    && if |log.reached| < d && log.attempts == Cap(d) && mid != []
       then (log.targets, after) == Fallback(c.nLocal, user, d, log.reached, mid)
       else log.targets == log.reached && after == mid && (|log.reached| == d || mid == [])
  }

  lemma HomeStays(c: Config, b: Build, b': Build, user: nat, d: nat, log: HomeLog, before: seq<nat>, after: seq<nat>)
    requires Bijection(c, b) && Bijection(c, b') && Extends(b, b') && HomeFrom(c, b, user, d, log, before, after)
    ensures HomeFrom(c, b', user, d, log, before, after)
  {
    ReachedStays(c, b, b', user, d, before, log.attempts, log.reached);
  }

  // ----- bridges -----

  /** One bridge: the home user trusted, the truster's instance and rank; and the rest of the stream. */
  function ReadBridge(c: Config, rest: seq<nat>): (r: ((Location, nat), seq<nat>))
    requires c.Valid()
    ensures c.Exists(r.0.0) && r.0.1 < c.nLocal
  {
    var (local, r0) := Draw(rest, c.nLocal);
    var (inst, r1) := Draw(r0, |c.sizes|);
    var (rank, r2) := Draw(r1, c.sizes[inst]);
    (((inst, rank + 1), local), r2)
  }

  function BridgesRest(c: Config, before: seq<nat>, n: nat): seq<nat>
    requires c.Valid()
  {
    if n == 0 then before else ReadBridge(c, BridgesRest(c, before, n - 1)).1
  }

  function BridgeAt(c: Config, before: seq<nat>, k: nat): (Location, nat)
    requires c.Valid()
  {
    ReadBridge(c, BridgesRest(c, before, k)).0
  }

  ghost function BridgesDrawn(c: Config, before: seq<nat>, n: nat): set<(Location, nat)>
    requires c.Valid()
  {
    set k: nat | k < n :: BridgeAt(c, before, k)
  }

  lemma BridgesNext(c: Config, before: seq<nat>, n: nat)
    requires c.Valid()
    ensures BridgesDrawn(c, before, n + 1) == BridgesDrawn(c, before, n) + {BridgeAt(c, before, n)}
  {
    hide BridgeAt;
    forall q ensures q in BridgesDrawn(c, before, n + 1) <==>
        q in BridgesDrawn(c, before, n) + {BridgeAt(c, before, n)} {
      if q in BridgesDrawn(c, before, n + 1) {
        var k: nat :| k < n + 1 && q == BridgeAt(c, before, k);
        if k < n { assert q in BridgesDrawn(c, before, n); }
      }
    }
  }

  ghost function BridgeEnds(b: Build, edges: set<Edge>): set<(Location, nat)> {
    set e | e in edges && e.0 in b.nodeToLoc :: (b.nodeToLoc[e.0], e.1)
  }

  /** The bridges are exactly the drawn pairs of a remote and a home user. */
  ghost predicate Bridged(c: Config, b: Build, edges: set<Edge>, before: seq<nat>, n: nat) {
    && c.Valid() && (forall e :: e in edges ==> e.0 in b.nodeToLoc && e.1 < c.nLocal)
    && BridgeEnds(b, edges) == BridgesDrawn(c, before, n)
  }

  lemma BridgeNothing(c: Config, b: Build, before: seq<nat>)
    requires c.Valid()
    ensures Bridged(c, b, {}, before, 0)
  {
    assert BridgesDrawn(c, before, 0) == {};
  }

  lemma BridgedStays(c: Config, b: Build, b': Build, edges: set<Edge>, before: seq<nat>, n: nat)
    requires Bridged(c, b, edges, before, n) && Extends(b, b')
    ensures Bridged(c, b', edges, before, n)
  {
    assert forall e :: e in edges ==> b'.nodeToLoc[e.0] == b.nodeToLoc[e.0];
    assert BridgeEnds(b', edges) == BridgeEnds(b, edges);
  }

  lemma BridgeOne(c: Config, b: Build, b': Build, edges: set<Edge>, before: seq<nat>, n: nat, e: Edge)
    requires Bridged(c, b, edges, before, n) && Extends(b, b')
    requires e.0 in b'.nodeToLoc && BridgeAt(c, before, n) == (b'.nodeToLoc[e.0], e.1)
    ensures Bridged(c, b', edges + {e}, before, n + 1)
  {
    BridgedStays(c, b, b', edges, before, n);
    BridgesNext(c, before, n);
    hide BridgesDrawn;
    assert BridgeEnds(b', edges + {e}) == BridgeEnds(b', edges) + {(b'.nodeToLoc[e.0], e.1)};
  }

  // ----- nobody is out of reach -----

  lemma DrawExact(x: nat, rest: seq<nat>, bound: nat)
    requires x < bound
    ensures Draw([x] + rest, bound) == (x, rest)
  {
    assert ([x] + rest)[1..] == rest;
  }

  /** Every home user and every remote user can be drawn as a target, every pair of them as a bridge, and every rank
      as a colleague. Reading takes exactly the draws that name them. */
  lemma EveryoneCanBeDrawn(c: Config, user: nat, at: Location, rest: seq<nat>)
    requires c.Valid() && user < c.nLocal && c.Exists(at)
    ensures ReadPick(c, [0] + ([user] + rest)) == (Nearby(user), rest)
    ensures ReadPick(c, [1] + ([at.0] + ([at.1 - 1] + rest))) == (Faraway(at), rest)
    ensures ReadBridge(c, [user] + ([at.0] + ([at.1 - 1] + rest))) == ((at, user), rest)
    ensures RankOf(at.1 - 1, c.sizes[at.0]) == at.1
  {
    var last := [at.1 - 1] + rest;
    DrawExact(0, [user] + rest, 2);
    DrawExact(user, rest, c.nLocal);
    DrawExact(1, [at.0] + last, 2);
    DrawExact(user, [at.0] + last, c.nLocal);
    DrawExact(at.0, last, |c.sizes|);
    DrawExact(at.1 - 1, rest, c.sizes[at.0]);
    hide Draw;
  }

  /** Every tier can be drawn. Twenty attempts per target are allowed, and never fewer than 64. */
  lemma EveryTierCanBeDrawn(c: Config, d: nat, rest: seq<nat>)
    ensures Draw([0] + rest, 3) == (0, rest) && TierDegree(c, 0) == c.power
    ensures Draw([1] + rest, 3) == (1, rest) && TierDegree(c, 1) == c.active
    ensures Draw([2] + rest, 3) == (2, rest) && TierDegree(c, 2) == c.lurker
    ensures d >= 4 ==> Cap(d) == 20 * d
    ensures d <= 3 ==> Cap(d) == 64
  {
    DrawExact(0, rest, 3);
    DrawExact(1, rest, 3);
    DrawExact(2, rest, 3);
  }
}
