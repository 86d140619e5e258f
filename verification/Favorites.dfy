/** Favorite rooms: a per-user table of positions, changed by four operations. */
module Favorites {
  import opened Sorting

  /** Room id to position; one row per room by the table's primary key. */
  type Table = map<string, int>

  const FAVORITES_CAP: int := 50

  datatype Outcome = NoContent | RoomNotFound | FavoriteCapExceeded | FavoriteSetMismatch

  datatype Resolved = Missing | Room(id: string)

  // ----- dense tables are lists -----

  /** The table that lists `order` from position 0. */
  ghost function Listing(order: seq<string>): Table
    requires NoRepeats(order)
  {
    map room | room in order :: IndexOf(order, room)
  }

  ghost function IndexOf(order: seq<string>, room: string): int
    requires room in order
  {
    var i :| 0 <= i < |order| && order[i] == room;
    i
  }

  lemma ListingAt(order: seq<string>, i: nat)
    requires NoRepeats(order) && i < |order|
    ensures order[i] in Listing(order) && Listing(order)[order[i]] == i
  {}

  lemma ListingIs(t: Table, order: seq<string>)
    requires NoRepeats(order) && t.Keys == Elements(order)
    requires forall i :: 0 <= i < |order| ==> order[i] in t && t[order[i]] == i
    ensures t == Listing(order) && Dense(t)
  {
    forall r | r in t ensures r in order && Listing(order)[r] == t[r] {
      assert r in Elements(order);
      var i :| 0 <= i < |order| && order[i] == r;
      ListingAt(order, i);
    }
  }

  lemma ListingSize(order: seq<string>)
    requires NoRepeats(order)
    ensures |Listing(order)| == |order|
  {
    SetSize(order);
    assert Listing(order).Keys == Elements(order);
  }

  /** Positions are exactly 0..N-1, each used once. */
  ghost predicate Dense(t: Table) {
    exists order: seq<string> :: NoRepeats(order) && t == Listing(order)
  }

  /** What density means row by row. */
  lemma DenseMeaning(t: Table)
    requires Dense(t)
    ensures forall room :: room in t ==> 0 <= t[room] < |t|
    ensures forall a, b :: a in t && b in t && t[a] == t[b] ==> a == b
    ensures forall i: int :: 0 <= i < |t| ==> Occupied(t, i)
  {
    var order :| NoRepeats(order) && t == Listing(order);
    ListingSize(order);
    forall i: int | 0 <= i < |t| ensures Occupied(t, i) {
      ListingAt(order, i);
    }
  }

  ghost predicate Occupied(t: Table, i: int) {
    exists room :: room in t && t[room] == i
  }

  /** Bounds that hold even when an administrator has removed rows. */
  ghost predicate Bounded(t: Table) {
    |t| <= FAVORITES_CAP && forall room :: room in t ==> 0 <= t[room] < FAVORITES_CAP
  }

  // ----- the operations as steps -----

  datatype Op = Favorite(room: string) | Unfavorite(room: string) | Reorder(ids: seq<string>) | Delete(room: string)

  /** `t'` is dense and keeps the order of the rows of `t`. */
  ghost predicate Renumbered(t: Table, t': Table) {
    && t'.Keys == t.Keys && Dense(t')
    && forall a, b :: a in t && b in t && t[a] < t[b] ==> t'[a] < t'[b]
  }

  ghost predicate Permutes(ids: seq<string>, t: Table) {
    NoRepeats(ids) && Elements(ids) == t.Keys
  }

  ghost predicate Next(t: Table, op: Op, t': Table, out: Outcome) {
    match op
    case Favorite(room) =>
      if room in t then t' == t && out == NoContent
      else if |t| >= FAVORITES_CAP then t' == t && out == FavoriteCapExceeded
      else t' == t[room := |t|] && out == NoContent
    case Unfavorite(room) =>
      out == NoContent && if room in t then Renumbered(t - {room}, t') else t' == t
    case Reorder(ids) =>
      if Permutes(ids, t) then t' == Listing(ids) && out == NoContent else t' == t && out == FavoriteSetMismatch
    case Delete(room) =>
      t' == t - {room}
  }

  // ----- runs -----

  ghost predicate Run(ts: seq<Table>, ops: seq<Op>, outs: seq<Outcome>) {
    && |ts| == |ops| + 1 == |outs| + 1 && ts[0] == map[]
    && forall k :: 0 <= k < |ops| ==> Next(ts[k], ops[k], ts[k + 1], outs[k])
  }

  lemma DenseAppend(t: Table, room: string)
    requires Dense(t) && room !in t
    ensures Dense(t[room := |t|])
  {
    var order :| NoRepeats(order) && t == Listing(order);
    ListingSize(order);
    assert room !in order;
    forall i | 0 <= i < |order| ensures order[i] in t && t[order[i]] == i { ListingAt(order, i); }
    ListingIs(t[room := |t|], order + [room]);
  }

  lemma StepKeepsDense(t: Table, op: Op, t': Table, out: Outcome)
    requires Dense(t) && |t| <= FAVORITES_CAP && Next(t, op, t', out) && !op.Delete?
    ensures Dense(t') && |t'| <= FAVORITES_CAP
  {
    match op
    case Favorite(room) =>
      if room !in t { DenseAppend(t, room); }
    case Unfavorite(room) =>
      if room in t { assert |t'.Keys| == |t.Keys - {room}|; }
    case Reorder(ids) =>
      if Permutes(ids, t) {
        ListingSize(ids);
        SetSize(ids);
      }
  }

  lemma StepKeepsBounded(t: Table, op: Op, t': Table, out: Outcome)
    requires Bounded(t) && Next(t, op, t', out)
    ensures Bounded(t')
  {
    match op
    case Favorite(room) =>
    case Unfavorite(room) =>
      if room in t {
        assert |t'.Keys| == |t.Keys - {room}|;
        DenseMeaning(t');
      }
    case Reorder(ids) =>
      if Permutes(ids, t) {
        assert Dense(t');
        DenseMeaning(t');
        assert |t'.Keys| == |t.Keys|;
      }
    case Delete(room) =>
      assert t'.Keys <= t.Keys;
      SubsetSize(t'.Keys, t.Keys);
  }

  /** Favoriting, unfavoriting and reordering keep positions at exactly 0..N-1 with N at most 50; and even with
      administrative deletions every run keeps at most 50 rows with positions below 50. */
  lemma {:induction false} RunsKeep(ts: seq<Table>, ops: seq<Op>, outs: seq<Outcome>, k: nat)
    requires Run(ts, ops, outs) && k < |ts|
    ensures Bounded(ts[k]) && |ts[k]| <= 50
    ensures (forall j :: 0 <= j < k ==> !ops[j].Delete?) ==> Dense(ts[k]) && |ts[k]| <= FAVORITES_CAP
  {
    if k == 0 {
      assert map[] == Listing([]);
    } else {
      RunsKeep(ts, ops, outs, k - 1);
      assert Next(ts[k - 1], ops[k - 1], ts[k], outs[k - 1]);
      StepKeepsBounded(ts[k - 1], ops[k - 1], ts[k], outs[k - 1]);
      if forall j :: 0 <= j < k ==> !ops[j].Delete? {
        StepKeepsDense(ts[k - 1], ops[k - 1], ts[k], outs[k - 1]);
      }
    }
  }

  /** A removing unfavorite or an accepted reorder. */
  predicate Restores(t: Table, op: Op, out: Outcome) {
    (op.Unfavorite? && op.room in t) || (op.Reorder? && out == NoContent)
  }

  /** Whatever gaps or ties an administrator left behind, a removal or an accepted reorder closes them. */
  lemma DensityRestored(t: Table, op: Op, t': Table, out: Outcome)
    requires Next(t, op, t', out) && Restores(t, op, out)
    ensures Dense(t')
  {}

  ghost predicate NoDeletes(ops: seq<Op>, from: nat, to: nat) {
    forall j :: from <= j < to && j < |ops| ==> !ops[j].Delete?
  }

  /** By step `k` every administrative deletion has been followed by a restoring step. */
  ghost predicate Settled(ts: seq<Table>, ops: seq<Op>, outs: seq<Outcome>, k: nat)
    requires Run(ts, ops, outs) && k < |ts|
  {
    NoDeletes(ops, 0, k) || exists j :: 0 <= j < k && Restores(ts[j], ops[j], outs[j]) && NoDeletes(ops, j + 1, k)
  }

  lemma {:induction false} StaysDense(ts: seq<Table>, ops: seq<Op>, outs: seq<Outcome>, j: nat, k: nat)
    requires Run(ts, ops, outs) && j <= k < |ts| && Dense(ts[j]) && NoDeletes(ops, j, k)
    ensures Dense(ts[k])
    decreases k
  {
    if j < k {
      var i := k - 1;
      assert !ops[i].Delete? && Next(ts[i], ops[i], ts[i + 1], outs[i]);
      StaysDense(ts, ops, outs, j, i);
      RunsKeep(ts, ops, outs, i);
      hide Dense, Next, Run;
      StepKeepsDense(ts[i], ops[i], ts[k], outs[i]);
    }
  }

  /** Every run is dense wherever it is settled. */
  lemma SettledIsDense(ts: seq<Table>, ops: seq<Op>, outs: seq<Outcome>, k: nat)
    requires Run(ts, ops, outs) && k < |ts| && Settled(ts, ops, outs, k)
    ensures Dense(ts[k])
  {
    if NoDeletes(ops, 0, k) {
      RunsKeep(ts, ops, outs, k);
    } else {
      var j :| 0 <= j < k && Restores(ts[j], ops[j], outs[j]) && NoDeletes(ops, j + 1, k);
      assert Next(ts[j], ops[j], ts[j + 1], outs[j]);
      DensityRestored(ts[j], ops[j], ts[j + 1], outs[j]);
      StaysDense(ts, ops, outs, j + 1, k);
    }
  }

  /** In every run, once it is settled, a new favorite goes behind all others and moves none of them. */
  lemma AppendsLast(ts: seq<Table>, ops: seq<Op>, outs: seq<Outcome>, k: nat, room: string)
    requires Run(ts, ops, outs) && k < |ops| && Settled(ts, ops, outs, k)
    requires ops[k] == Favorite(room) && room !in ts[k] && outs[k] == NoContent
    ensures ts[k + 1].Keys == ts[k].Keys + {room}
    ensures forall r :: r in ts[k] ==> ts[k + 1][r] == ts[k][r] < ts[k + 1][room]
  {
    SettledIsDense(ts, ops, outs, k);
    DenseMeaning(ts[k]);
    assert Next(ts[k], ops[k], ts[k + 1], outs[k]);
  }

  /** A deletion keeps a dense table dense exactly when it removes the last row or none. */
  lemma DeletionExact(t: Table, room: string)
    requires Dense(t)
    ensures Dense(t - {room}) <==> room !in t || t[room] == |t| - 1
  {
    DenseMeaning(t);
    if room !in t {
      assert t - {room} == t;
    } else {
      assert |(t - {room}).Keys| == |t.Keys - {room}| == |t| - 1;
      if t[room] == |t| - 1 {
        DenseDropLast(t, room);
      } else {
        assert Occupied(t, |t| - 1);
        var last :| last in t && t[last] == |t| - 1;
        GapIsNotDense(t - {room}, last);
      }
    }
  }

  lemma GapIsNotDense(t: Table, room: string)
    requires room in t && t[room] >= |t|
    ensures !Dense(t)
  {
    if Dense(t) { DenseMeaning(t); }
  }

  lemma DenseDropLast(t: Table, room: string)
    requires Dense(t) && room in t && t[room] == |t| - 1
    ensures Dense(t - {room})
  {
    DenseMeaning(t);
    var order :| NoRepeats(order) && t == Listing(order);
    ListingSize(order);
    var n := |order| - 1;
    ListingAt(order, n);
    var rest := order[..n];
    forall i | 0 <= i < n ensures rest[i] in t && t[rest[i]] == i { ListingAt(order, i); }
    assert order == rest + [room];
    assert (t - {room}).Keys == Elements(rest);
    hide Dense;
    ListingIs(t - {room}, rest);
  }

  /** After a gap the next favorite can land on a position already taken: favorite a, favorite b, the administrator
      deletes a, favorite c. */
  lemma GapMakesTie() returns (ts: seq<Table>, ops: seq<Op>, outs: seq<Outcome>)
    ensures Run(ts, ops, outs) && ops == [Favorite("a"), Favorite("b"), Delete("a"), Favorite("c")]
    ensures outs[3] == NoContent && "b" in ts[4] && "c" in ts[4] && ts[4]["b"] == ts[4]["c"]
  {
    ts := [map[], map["a" := 0], map["a" := 0, "b" := 1], map["b" := 1], map["b" := 1, "c" := 1]];
    ops := [Favorite("a"), Favorite("b"), Delete("a"), Favorite("c")];
    outs := [NoContent, NoContent, NoContent, NoContent];
    assert map["a" := 0, "b" := 1] - {"a"} == map["b" := 1];
    forall k | 0 <= k < 4 ensures Next(ts[k], ops[k], ts[k + 1], outs[k]) {}
  }

  // ----- the handlers -----

  function PositionOf(t: Table, room: string): int {
    if room in t then t[room] else 0
  }

  predicate ByPosition(t: Table, a: string, b: string) {
    PositionOf(t, a) <= PositionOf(t, b)
  }

  /** Room ids in some order, as a query without an ordering returns them. */
  method SelectRooms(t: Table) returns (rooms: seq<string>)
    ensures NoRepeats(rooms) && Elements(rooms) == t.Keys
  {
    rooms := [];
    var rest := t.Keys;
    while rest != {}
      invariant rest <= t.Keys && NoRepeats(rooms) && Elements(rooms) == t.Keys - rest
    {
      var room :| room in rest;
      assert room !in Elements(rooms);
      assert Elements(rooms + [room]) == Elements(rooms) + {room};
      rooms := rooms + [room];
      rest := rest - {room};
    }
  }

  /** Rewrite the position of every listed room to its index. */
  method RewritePositions(t: Table, rooms: seq<string>) returns (t': Table)
    requires NoRepeats(rooms) && Elements(rooms) == t.Keys
    ensures t' == Listing(rooms)
  {
    t' := t;
    for idx := 0 to |rooms|
      invariant t'.Keys == t.Keys
      invariant forall i :: 0 <= i < idx ==> rooms[i] in t' && t'[rooms[i]] == i
    {
      assert rooms[idx] in Elements(rooms);
      t' := t'[rooms[idx] := idx];
    }
    ListingIs(t', rooms);
  }

  /** Order the rows by position, ties in any order, and number them from 0. */
  method RenumberPositions(t: Table) returns (t': Table)
    ensures Renumbered(t, t')
  {
    var rooms := SelectRooms(t);
    var rows := Sort((a, b) => ByPosition(t, a, b), rooms);
    SortOrdered((a, b) => ByPosition(t, a, b), rooms);
    PermutedNoRepeats(rooms, rows);
    forall r ensures r in rows <==> r in rooms { SameMembers(rows, rooms, r); }
    assert Elements(rows) == Elements(rooms);
    t' := RewritePositions(t, rows);
    OrderKept(t, rows);
  }

  lemma OrderKept(t: Table, rows: seq<string>)
    requires NoRepeats(rows) && Elements(rows) == t.Keys && Ordered((a, b) => ByPosition(t, a, b), rows)
    ensures Renumbered(t, Listing(rows))
  {
    var listing := Listing(rows);
    assert Dense(listing) && listing.Keys == t.Keys;
    hide Dense, Listing, NoRepeats, Ordered, Elements;
    forall a, b | a in t && b in t && t[a] < t[b] ensures listing[a] < listing[b] {
      PairKept(t, rows, a, b);
    }
  }

  lemma PairKept(t: Table, rows: seq<string>, a: string, b: string)
    requires NoRepeats(rows) && Elements(rows) == t.Keys && Ordered((a, b) => ByPosition(t, a, b), rows)
    requires a in t && b in t && t[a] < t[b]
    ensures a in Listing(rows) && b in Listing(rows) && Listing(rows)[a] < Listing(rows)[b]
  {
    assert a in Elements(rows) && b in Elements(rows);
    var i :| 0 <= i < |rows| && rows[i] == a;
    var j :| 0 <= j < |rows| && rows[j] == b;
    hide Listing, NoRepeats, Ordered;
    ListingAt(rows, i);
    ListingAt(rows, j);
    if j < i { RowsAscend(t, rows, j, i); }
  }

  lemma RowsAscend(t: Table, rows: seq<string>, i: nat, j: nat)
    requires Ordered((a, b) => ByPosition(t, a, b), rows) && i < j < |rows|
    ensures PositionOf(t, rows[i]) <= PositionOf(t, rows[j])
  {
    var le := (a, b) => ByPosition(t, a, b);
    assert le(rows[i], rows[j]);
  }

  /** Drop consecutive duplicates. */
  function Dedup(s: seq<string>): (r: seq<string>)
    ensures |r| <= |s|
  {
    if |s| < 2 then s
    else if s[0] == s[1] then Dedup(s[1..])
    else [s[0]] + Dedup(s[1..])
  }

  lemma {:induction false} DedupKeeps(s: seq<string>)
    requires Ordered(LexLe, s)
    ensures |Dedup(s)| == |s| <==> NoRepeats(s)
    ensures NoRepeats(s) ==> Dedup(s) == s
  {
    if |s| >= 2 {
      DedupKeeps(s[1..]);
      LexIsTotalOrder();
      assert s == [s[0]] + s[1..];
      if s[0] != s[1] {
        forall j | 1 <= j < |s| ensures s[0] != s[j] {
          assert LexLe(s[0], s[1]) && (j == 1 || LexLe(s[1], s[j]));
        }
      }
    }
  }

  /** The submitted list is accepted exactly when it is a permutation of the current favorites. */
  lemma AcceptsPermutations(ids: seq<string>, current: seq<string>)
    requires NoRepeats(current)
    ensures var submitted := Dedup(Sort(LexLe, ids));
            (|submitted| == |ids| && submitted == Sort(LexLe, current)) <==>
              NoRepeats(ids) && Elements(ids) == Elements(current)
  {
    LexIsTotalOrder();
    SortOrdered(LexLe, ids);
    SortOrdered(LexLe, current);
    var a, b := Sort(LexLe, ids), Sort(LexLe, current);
    DedupKeeps(a);
    if NoRepeats(a) { PermutedNoRepeats(a, ids); }
    if NoRepeats(ids) {
      PermutedNoRepeats(ids, a);
      if Elements(ids) == Elements(current) {
        SameElements(ids, current);
        OrderedUnique(LexLe, a, b);
      }
    }
    if a == b {
      forall x ensures x in ids <==> x in current { SameMembers(ids, current, x); }
    }
  }

  /** Two lists without repeats and with the same members are permutations of each other. */
  lemma SameElements(a: seq<string>, b: seq<string>)
    requires NoRepeats(a) && NoRepeats(b) && Elements(a) == Elements(b)
    ensures multiset(a) == multiset(b)
  {
    NoRepeatsCount(a);
    NoRepeatsCount(b);
    forall x ensures multiset(a)[x] == multiset(b)[x] {
      assert x in a <==> x in Elements(a);
      assert x in b <==> x in Elements(b);
      assert x in a <==> x in multiset(a);
      assert x in b <==> x in multiset(b);
    }
  }

  method ReorderTable(t: Table, ids: seq<string>) returns (t': Table, out: Outcome)
    ensures Next(t, Reorder(ids), t', out)
  {
    var current := SelectRooms(t);
    var submitted := Dedup(Sort(LexLe, ids));
    AcceptsPermutations(ids, current);
    if |submitted| != |ids| || submitted != Sort(LexLe, current) { return t, FavoriteSetMismatch; }
    t' := RewritePositions(t, ids);
    out := NoContent;
  }

  /** All users' favorites. */
  class Store {
    var tables: map<string, Table>

    constructor ()
      ensures tables == map[]
    {
      tables := map[];
    }

    ghost function Of(user: string): Table
      reads this
    {
      if user in tables then tables[user] else map[]
    }

    method Current(user: string) returns (t: Table)
      ensures t == Of(user)
    {
      t := if user in tables then tables[user] else map[];
    }

    method FavoriteRoom(user: string, resolved: Resolved) returns (out: Outcome)
      modifies this
      ensures resolved.Missing? ==> out == RoomNotFound && tables == old(tables)
      ensures resolved.Room? ==> Next(old(Of(user)), Favorite(resolved.id), Of(user), out)
      ensures forall u :: u != user ==> Of(u) == old(Of(u))
    {
      if resolved.Missing? { return RoomNotFound; }
      var t := Current(user);
      if resolved.id in t { return NoContent; }
      var count := |t|;
      if count >= FAVORITES_CAP { return FavoriteCapExceeded; }
      tables := tables[user := t[resolved.id := count]];
      return NoContent;
    }

    method UnfavoriteRoom(user: string, resolved: Resolved) returns (out: Outcome)
      modifies this
      ensures resolved.Missing? ==> out == RoomNotFound && tables == old(tables)
      ensures resolved.Room? ==> Next(old(Of(user)), Unfavorite(resolved.id), Of(user), out)
      ensures forall u :: u != user ==> Of(u) == old(Of(u))
    {
      if resolved.Missing? { return RoomNotFound; }
      var t := Current(user);
      if resolved.id in t {
        var t' := RenumberPositions(t - {resolved.id});
        tables := tables[user := t'];
      }
      return NoContent;
    }

    method ReorderFavorites(user: string, ids: seq<string>) returns (out: Outcome)
      modifies this
      ensures Next(old(Of(user)), Reorder(ids), Of(user), out)
      ensures forall u :: u != user ==> Of(u) == old(Of(u))
    {
      var t := Current(user);
      var t';
      t', out := ReorderTable(t, ids);
      if out == NoContent { tables := tables[user := t']; }
    }

    /** The favorites step of deleting a room: its rows vanish for everyone, nothing is renumbered. */
    method DeleteRoom(room: string)
      modifies this
      ensures forall u, out :: Next(old(Of(u)), Delete(room), Of(u), out)
    {
      tables := map u | u in tables :: tables[u] - {room};
    }
  }
}
