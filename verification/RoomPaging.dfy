/** Keyset pagination of the room listing. */
module RoomPaging {
  import opened Options
  import opened Sorting
  import opened Strings

  const ROOMS_PAGE_SIZE: nat := 30

  /** Sort key: warmth, then creation time, then id. */
  datatype Key = Key(score: real, createdAt: string, id: string)

  datatype Room = Room(id: string, createdAt: string)

  /** A listed room and its activity, if any was recorded. */
  datatype Entry = Entry(room: Room, sparkline: Option<seq<nat>>)

  /** Decay weight of a bucket by its age in days. */
  type Weights = nat -> real

  // ----- warmth -----

  function WarmthFrom(sparkline: seq<nat>, weight: Weights, i: nat): real
    requires i <= |sparkline|
  {
    if i == 0 then 0.0
    else WarmthFrom(sparkline, weight, i - 1) + sparkline[i - 1] as real * weight(|sparkline| - i)
  }

  function WarmthScore(sparkline: seq<nat>, weight: Weights): real {
    WarmthFrom(sparkline, weight, |sparkline|)
  }

  function RoomWarmth(activity: Option<seq<nat>>, weight: Weights): real {
    if activity.Some? then WarmthScore(activity.value, weight) else 0.0
  }

  /** The sparkline a response carries: zero-padded when the room had no activity. */
  function Shown(activity: Option<seq<nat>>, windowDays: nat): seq<nat> {
    if activity.Some? then activity.value else seq(windowDays, _ => 0)
  }

  lemma {:induction false} ColdRoom(windowDays: nat, weight: Weights, i: nat)
    requires i <= windowDays
    ensures WarmthFrom(seq(windowDays, _ => 0), weight, i) == 0.0
  {
    if i > 0 { ColdRoom(windowDays, weight, i - 1); }
  }

  /** The score recomputed from the response equals the score used for sorting. */
  lemma WarmthAgrees(activity: Option<seq<nat>>, windowDays: nat, weight: Weights)
    ensures WarmthScore(Shown(activity, windowDays), weight) == RoomWarmth(activity, weight)
  {
    if activity.None? { ColdRoom(windowDays, weight, windowDays); }
  }

  /** One more thread `k` days ago adds `weight(k)`, today being 0 days ago; an empty sparkline scores 0. */
  lemma WarmthSteps(sparkline: seq<nat>, weight: Weights, k: nat)
    requires k < |sparkline|
    ensures var i := |sparkline| - 1 - k;
            WarmthScore(sparkline[i := sparkline[i] + 1], weight) == WarmthScore(sparkline, weight) + weight(k)
    ensures WarmthScore([], weight) == 0.0 && WarmthScore(seq(|sparkline|, _ => 0), weight) == 0.0
  {
    ColdRoom(|sparkline|, weight, |sparkline|);
    WarmthStep(sparkline, weight, k, |sparkline|);
  }

  lemma {:induction false} WarmthStep(sparkline: seq<nat>, weight: Weights, k: nat, n: nat)
    requires k < |sparkline| && n <= |sparkline|
    ensures var i := |sparkline| - 1 - k;
            WarmthFrom(sparkline[i := sparkline[i] + 1], weight, n)
              == WarmthFrom(sparkline, weight, n) + if i < n then weight(k) else 0.0
  {
    if n > 0 { WarmthStep(sparkline, weight, k, n - 1); }
  }

  /** The half-life of two days: the weight halves every two days and starts at one. */
  ghost predicate HalfLife(weight: Weights) {
    weight(0) == 1.0 && forall k: nat :: Halved(weight, k)
  }

  ghost predicate Halved(weight: Weights, k: nat) {
    weight(k) > 0.0 && weight(k + 2) == weight(k) / 2.0
  }

  /** A single thread today outscores seven threads of six days ago. */
  lemma RecencyBeatsVolume(weight: Weights)
    requires HalfLife(weight)
    ensures WarmthScore([7, 0, 0, 0, 0, 0, 0], weight) == 0.875
    ensures WarmthScore([0, 0, 0, 0, 0, 0, 1], weight) == 1.0
  {
    assert Halved(weight, 0) && Halved(weight, 2) && Halved(weight, 4);
    var old', new' := [7, 0, 0, 0, 0, 0, 0], [0, 0, 0, 0, 0, 0, 1];
    assert weight(6) == 0.125;
    assert WarmthFrom(old', weight, 1) == WarmthFrom(old', weight, 0) + 7 as real * weight(6);
    OnlyZeros(old', weight, 1, 7);
    OnlyZeros(new', weight, 0, 6);
    assert WarmthFrom(new', weight, 0) == 0.0;
  }

  lemma {:induction false} OnlyZeros(sparkline: seq<nat>, weight: Weights, m: nat, n: nat)
    requires m <= n <= |sparkline| && forall i :: m <= i < n ==> sparkline[i] == 0
    ensures WarmthFrom(sparkline, weight, n) == WarmthFrom(sparkline, weight, m)
    decreases n
  {
    if m < n { OnlyZeros(sparkline, weight, m, n - 1); }
  }

  function KeyOf(e: Entry, weight: Weights): Key {
    Key(RoomWarmth(e.sparkline, weight), e.room.createdAt, e.room.id)
  }

  // ----- order -----

  /** `a` sorts strictly below `b`. */
  predicate Less(a: Key, b: Key) {
    || a.score < b.score
    || (a.score == b.score && a.createdAt != b.createdAt && LexLe(a.createdAt, b.createdAt))
    || (a.score == b.score && a.createdAt == b.createdAt && a.id != b.id && LexLe(a.id, b.id))
  }

  /** Descending order on entries. */
  predicate Precedes(weight: Weights, a: Entry, b: Entry) {
    !Less(KeyOf(a, weight), KeyOf(b, weight))
  }

  lemma LessTotal(a: Key, b: Key)
    ensures Less(a, b) || a == b || Less(b, a)
    ensures !(Less(a, b) && Less(b, a)) && !Less(a, a)
  {
    LexTotal(a.createdAt, b.createdAt);
    LexTotal(a.id, b.id);
  }

  lemma LessTransitive(a: Key, b: Key, c: Key)
    requires Less(a, b) && Less(b, c)
    ensures Less(a, c)
  {
    LexTotal(a.createdAt, b.createdAt);
    LexTotal(b.createdAt, c.createdAt);
    LexTotal(a.createdAt, c.createdAt);
    LexTotal(a.id, b.id);
    LexTotal(b.id, c.id);
    LexTotal(a.id, c.id);
    if LexLe(a.createdAt, b.createdAt) && LexLe(b.createdAt, c.createdAt) {
      LexTransitive(a.createdAt, b.createdAt, c.createdAt);
    }
    if LexLe(a.id, b.id) && LexLe(b.id, c.id) { LexTransitive(a.id, b.id, c.id); }
  }

  lemma PrecedesIsTotal(weight: Weights)
    ensures TotalOrder((a: Entry, b: Entry) => Precedes(weight, a, b))
  {
    forall a: Entry, b: Entry ensures Precedes(weight, a, b) || Precedes(weight, b, a) {
      LessTotal(KeyOf(a, weight), KeyOf(b, weight));
    }
    forall a: Entry, b: Entry, c: Entry | Precedes(weight, a, b) && Precedes(weight, b, c)
      ensures Precedes(weight, a, c) {
      var x, y, z := KeyOf(a, weight), KeyOf(b, weight), KeyOf(c, weight);
      LessTotal(x, y);
      LessTotal(y, z);
      LessTotal(x, z);
      if Less(x, z) {
        if Less(y, x) { LessTransitive(y, x, z); }
        if Less(z, y) { LessTransitive(x, z, y); }
      }
    }
  }

  function Sorted(entries: seq<Entry>, weight: Weights): seq<Entry> {
    Sort((a: Entry, b: Entry) => Precedes(weight, a, b), entries)
  }

  /** Distinct room ids, as the primary key guarantees. */
  ghost predicate DistinctIds(entries: seq<Entry>) {
    forall i, j :: 0 <= i < j < |entries| ==> entries[i].room.id != entries[j].room.id
  }

  /** Strictly descending keys. */
  ghost predicate Descending(weight: Weights, s: seq<Entry>) {
    forall i, j :: 0 <= i < j < |s| ==> Less(KeyOf(s[j], weight), KeyOf(s[i], weight))
  }

  lemma SortedDescending(entries: seq<Entry>, weight: Weights)
    requires DistinctIds(entries)
    ensures Descending(weight, Sorted(entries, weight)) && multiset(Sorted(entries, weight)) == multiset(entries)
  {
    var le := (a: Entry, b: Entry) => Precedes(weight, a, b);
    var s := Sorted(entries, weight);
    PrecedesIsTotal(weight);
    SortOrdered(le, entries);
    PermutedNoRepeats(entries, s);
    forall i, j | 0 <= i < j < |s| ensures Less(KeyOf(s[j], weight), KeyOf(s[i], weight)) {
      assert le(s[i], s[j]);
      LessTotal(KeyOf(s[i], weight), KeyOf(s[j], weight));
      SameMembers(s, entries, s[i]);
      SameMembers(s, entries, s[j]);
    }
  }

  // ----- cursors -----

  /** Number printing and parsing and the id check are the library's. */
  datatype Codec = Codec(show: real -> string, parse: string -> Option<real>, isUuid: string -> bool)

  ghost predicate NoBar(s: string) {
    forall i :: 0 <= i < |s| ==> s[i] != '|'
  }

  /** This score survives printing and prints without a bar. */
  ghost predicate Faithful(c: Codec, x: real) {
    c.parse(c.show(x)) == Some(x) && NoBar(c.show(x))
  }

  function Format(c: Codec, k: Key): string {
    c.show(k.score) + "|" + k.createdAt + "|" + k.id
  }

  datatype ParseResult = InvalidCursor | Parsed(key: Key)

  /** At most three parts: the third keeps any further bars. */
  function ParseRoomCursor(c: Codec, cursor: string): ParseResult {
    var i := FindChar(cursor, '|');
    if i == |cursor| then InvalidCursor
    else
      var rest := cursor[i + 1..];
      var j := FindChar(rest, '|');
      if j == |rest| then InvalidCursor
      else
        var id := rest[j + 1..];
        match c.parse(cursor[..i])
        case None => InvalidCursor
        case Some(score) => if c.isUuid(id) then Parsed(Key(score, rest[..j], id)) else InvalidCursor
  }

  lemma {:induction false} FindBarAfter(a: string, b: string)
    requires NoBar(a)
    ensures FindChar(a + "|" + b, '|') == |a|
  {
    if a == "" {
      assert a + "|" + b == "|" + b;
    } else {
      FindBarAfter(a[1..], b);
      assert (a + "|" + b)[1..] == a[1..] + "|" + b;
    }
  }

  /** The cursor is the number, the key's creation time and its id between two bars. */
  ghost predicate Spells(c: Codec, number: string, k: Key, cursor: string) {
    && cursor == number + "|" + (k.createdAt + "|" + k.id)
    && NoBar(number) && NoBar(k.createdAt) && c.parse(number) == Some(k.score) && c.isUuid(k.id)
  }

  lemma SpelledParses(c: Codec, number: string, k: Key, cursor: string)
    requires Spells(c, number, k, cursor)
    ensures ParseRoomCursor(c, cursor) == Parsed(k)
  {
    var rest := k.createdAt + "|" + k.id;
    assert cursor == number + "|" + rest;
    hide FindChar;
    FindBarAfter(number, rest);
    assert cursor[..|number|] == number && cursor[|number| + 1..] == rest;
    FindBarAfter(k.createdAt, k.id);
    assert rest[..|k.createdAt|] == k.createdAt && rest[|k.createdAt| + 1..] == k.id;
  }

  lemma ParsedSpells(c: Codec, cursor: string, k: Key) returns (number: string)
    requires ParseRoomCursor(c, cursor) == Parsed(k)
    ensures Spells(c, number, k, cursor)
  {
    hide FindChar;
    var i := FindChar(cursor, '|');
    number := cursor[..i];
    var rest := cursor[i + 1..];
    var j := FindChar(rest, '|');
    assert k.createdAt == rest[..j] && k.id == rest[j + 1..];
    assert rest == k.createdAt + "|" + k.id;
    assert cursor == number + "|" + rest;
  }

  /** A cursor is read as a key exactly when it spells that key. */
  lemma ParseExact(c: Codec, cursor: string, k: Key)
    ensures ParseRoomCursor(c, cursor) == Parsed(k) <==> exists number: string :: Spells(c, number, k, cursor)
  {
    hide ParseRoomCursor;
    if ParseRoomCursor(c, cursor) == Parsed(k) {
      var number := ParsedSpells(c, cursor, k);
      assert Spells(c, number, k, cursor);
    }
    hide Spells;
    if number: string :| Spells(c, number, k, cursor) { SpelledParses(c, number, k, cursor); }
  }

  /** A formatted cursor is read back as the same key. */
  lemma CursorRoundTrip(c: Codec, k: Key)
    requires Faithful(c, k.score) && NoBar(k.createdAt) && c.isUuid(k.id)
    ensures Format(c, k) == c.show(k.score) + "|" + k.createdAt + "|" + k.id
    ensures ParseRoomCursor(c, Format(c, k)) == Parsed(k)
  {
    assert c.show(k.score) + "|" + k.createdAt + "|" + k.id == c.show(k.score) + "|" + (k.createdAt + "|" + k.id);
    SpelledParses(c, c.show(k.score), k, Format(c, k));
  }

  // ----- pages -----

  datatype Response = Response(id: string, createdAt: string, sparkline: seq<nat>)

  datatype PageResult = BadCursor | Page(rooms: seq<Response>, nextCursor: Option<string>)

  function Respond(e: Entry, windowDays: nat): Response {
    Response(e.room.id, e.room.createdAt, Shown(e.sparkline, windowDays))
  }

  function Responses(s: seq<Entry>, windowDays: nat): seq<Response> {
    seq(|s|, i requires 0 <= i < |s| => Respond(s[i], windowDays))
  }

  /** The first entry strictly past the key, or the end. */
  function Position(s: seq<Entry>, weight: Weights, k: Key): (i: nat)
    ensures i <= |s| && (i < |s| ==> Less(KeyOf(s[i], weight), k))
    ensures forall j :: 0 <= j < i ==> !Less(KeyOf(s[j], weight), k)
  {
    if s == [] || Less(KeyOf(s[0], weight), k) then 0 else 1 + Position(s[1..], weight, k)
  }

  /** Where a page starts: at the top, past the cursor's key, or nowhere. */
  function StartOf(c: Codec, s: seq<Entry>, weight: Weights, cursor: Option<string>): (r: Option<nat>)
    ensures r.Some? ==> r.value <= |s|
  {
    if cursor.None? then Some(0)
    else
      match ParseRoomCursor(c, cursor.value)
      case InvalidCursor => None
      case Parsed(k) => Some(Position(s, weight, k))
  }

  function EndOf(start: nat, n: nat): (e: nat)
    requires start <= n
    ensures start <= e <= n && (e < n ==> e == start + ROOMS_PAGE_SIZE)
  {
    if start + ROOMS_PAGE_SIZE < n then start + ROOMS_PAGE_SIZE else n
  }

  /** One page of a snapshot: the slice after the cursor, and a cursor at its last room if more follow. */
  function PageOf(c: Codec, entries: seq<Entry>, weight: Weights, windowDays: nat, cursor: Option<string>): PageResult {
    var s := Sorted(entries, weight);
    match StartOf(c, s, weight, cursor)
    case None => BadCursor
    case Some(start) =>
      var end := EndOf(start, |s|);
      Page(Responses(s[start..end], windowDays),
           if end < |s| then Some(Format(c, KeyOf(s[end - 1], weight))) else None)
  }

  method RenderRoomPage(c: Codec, entries: seq<Entry>, weight: Weights, windowDays: nat, cursor: Option<string>)
    returns (r: PageResult)
    ensures r == PageOf(c, entries, weight, windowDays, cursor)
  {
    var s := Sorted(entries, weight);
    var startIdx := 0;
    if cursor.Some? {
      match ParseRoomCursor(c, cursor.value) {
        case InvalidCursor => return BadCursor;
        case Parsed(k) => startIdx := FindPosition(s, weight, k);
      }
    }
    PageAt(c, entries, weight, windowDays, cursor, startIdx);
    hide *;
    r := Slice(c, s, weight, windowDays, startIdx);
  }

  /** The page that starts at `startIdx`. */
  method Slice(c: Codec, s: seq<Entry>, weight: Weights, windowDays: nat, startIdx: nat) returns (r: PageResult)
    requires startIdx <= |s|
    ensures var end := EndOf(startIdx, |s|);
            r == Page(Responses(s[startIdx..end], windowDays),
                      if end < |s| then Some(Format(c, KeyOf(s[end - 1], weight))) else None)
  {
    hide Format, WarmthScore, KeyOf;
    var endIdx := if startIdx + ROOMS_PAGE_SIZE < |s| then startIdx + ROOMS_PAGE_SIZE else |s|;
    var hasMore := endIdx < |s|;
    var page := Responses(s[startIdx..endIdx], windowDays);
    var nextCursor := None;
    if hasMore && page != [] {
      var last := page[|page| - 1];
      var score := WarmthScore(last.sparkline, weight);
      FormatIs(c, s[endIdx - 1], weight, windowDays);
      nextCursor := Some(c.show(score) + "|" + last.createdAt + "|" + last.id);
    }
    r := Page(page, nextCursor);
  }

  lemma FormatIs(c: Codec, e: Entry, weight: Weights, windowDays: nat)
    ensures var last := Respond(e, windowDays);
            Format(c, KeyOf(e, weight))
              == c.show(WarmthScore(last.sparkline, weight)) + "|" + last.createdAt + "|" + last.id
  {
    WarmthAgrees(e.sparkline, windowDays, weight);
  }

  /** Scan for the first entry strictly past the key. */
  method FindPosition(s: seq<Entry>, weight: Weights, k: Key) returns (i: nat)
    ensures i == Position(s, weight, k)
  {
    i := 0;
    while i < |s| && !Less(KeyOf(s[i], weight), k)
      invariant i <= |s| && forall j :: 0 <= j < i ==> !Less(KeyOf(s[j], weight), k)
    {
      i := i + 1;
    }
    var p := Position(s, weight, k);
    assert !(i < p) && !(p < i);
  }

  // ----- following the cursors -----

  /** The entry's key can be carried by a cursor. */
  ghost predicate Carried(c: Codec, e: Entry, weight: Weights) {
    Faithful(c, KeyOf(e, weight).score) && NoBar(e.room.createdAt) && c.isUuid(e.room.id)
  }

  ghost predicate Snapshot(c: Codec, entries: seq<Entry>, weight: Weights) {
    DistinctIds(entries) && forall i :: 0 <= i < |entries| ==> Carried(c, entries[i], weight)
  }

  function Name(i: nat): string {
    seq(i, _ => 'a')
  }

  /** Such snapshots exist for every number of rooms: one warm room, all others cold. */
  lemma SnapshotsExist(n: nat) returns (c: Codec, entries: seq<Entry>, weight: Weights)
    ensures |entries| == n && Snapshot(c, entries, weight)
    ensures forall i :: 0 <= i < n ==> KeyOf(entries[i], weight).score == if i == 0 then 1.0 else 0.0
  {
    c := Codec(x => if x == 0.0 then "0" else "1",
               s => if s == "0" then Some(0.0) else if s == "1" then Some(1.0) else None,
               _ => true);
    weight := _ => 1.0;
    entries := seq(n, i requires 0 <= i < n => Entry(Room(Name(i), ""), if i == 0 then Some([1]) else None));
    assert WarmthFrom([1], weight, 1) == 1.0 by { assert WarmthFrom([1], weight, 0) == 0.0; }
    assert Faithful(c, 0.0) && Faithful(c, 1.0);
    forall i, j | 0 <= i < j < n ensures entries[i].room.id != entries[j].room.id {
      assert |Name(i)| < |Name(j)|;
    }
  }

  /** The cursor at entry `e` starts the next page right after it. */
  lemma NextStart(c: Codec, entries: seq<Entry>, weight: Weights, e: nat)
    requires Snapshot(c, entries, weight) && e < |entries|
    ensures var s := Sorted(entries, weight);
            StartOf(c, s, weight, Some(Format(c, KeyOf(s[e], weight)))) == Some(e + 1)
  {
    var s := Sorted(entries, weight);
    SortedDescending(entries, weight);
    SameMembers(s, entries, s[e]);
    hide Sorted, ParseRoomCursor, Format, Faithful, DistinctIds, Less, Position, Descending;
    CursorRoundTrip(c, KeyOf(s[e], weight));
    PositionAfter(s, weight, e);
  }

  lemma PositionAfter(s: seq<Entry>, weight: Weights, e: nat)
    requires Descending(weight, s) && e < |s|
    ensures Position(s, weight, KeyOf(s[e], weight)) == e + 1
  {
    hide Less, KeyOf;
    var k := KeyOf(s[e], weight);
    if e + 1 < |s| { assert Less(KeyOf(s[e + 1], weight), k); }
    forall j | 0 <= j <= e ensures !Less(KeyOf(s[j], weight), k) { LessTotal(k, KeyOf(s[j], weight)); }
    var p := Position(s, weight, k);
    assert p > e && p <= e + 1;
  }

  /** Entries from the cursor's page to the end. */
  ghost function Left(c: Codec, entries: seq<Entry>, weight: Weights, cursor: Option<string>): nat {
    var s := Sorted(entries, weight);
    match StartOf(c, s, weight, cursor)
    case None => 0
    case Some(start) => |s| - start
  }

  lemma NextIsFurther(c: Codec, entries: seq<Entry>, weight: Weights, windowDays: nat, cursor: Option<string>)
    requires Snapshot(c, entries, weight)
    ensures var r := PageOf(c, entries, weight, windowDays, cursor);
            r.Page? && r.nextCursor.Some? ==>
              && Left(c, entries, weight, r.nextCursor) < Left(c, entries, weight, cursor)
              && StartOf(c, Sorted(entries, weight), weight, r.nextCursor)
                   == Some(EndOf(StartOf(c, Sorted(entries, weight), weight, cursor).value, |entries|))
  {
    var s := Sorted(entries, weight);
    assert |s| == |entries|;
    var start := StartOf(c, s, weight, cursor);
    hide Sorted, Format, StartOf, Responses, Snapshot;
    if start.Some? && EndOf(start.value, |s|) < |s| {
      NextStart(c, entries, weight, EndOf(start.value, |s|) - 1);
    }
  }

  /** Everything a client sees that keeps following `nextCursor` until there is none. */
  ghost function Follow(c: Codec, entries: seq<Entry>, weight: Weights, windowDays: nat,
                        cursor: Option<string>): seq<Response>
    requires Snapshot(c, entries, weight)
    decreases Left(c, entries, weight, cursor)
  {
    NextIsFurther(c, entries, weight, windowDays, cursor);
    match PageOf(c, entries, weight, windowDays, cursor)
    case BadCursor => []
    case Page(rooms, next) => if next.None? then rooms else rooms + Follow(c, entries, weight, windowDays, next)
  }

  lemma FollowStep(c: Codec, entries: seq<Entry>, weight: Weights, windowDays: nat, cursor: Option<string>, start: nat)
    requires Snapshot(c, entries, weight) && StartOf(c, Sorted(entries, weight), weight, cursor) == Some(start)
    ensures var s := Sorted(entries, weight);
            var end := EndOf(start, |s|);
            if end < |s|
            then var next := Some(Format(c, KeyOf(s[end - 1], weight)));
                 && StartOf(c, s, weight, next) == Some(end)
                 && Follow(c, entries, weight, windowDays, cursor)
                      == Responses(s[start..end], windowDays) + Follow(c, entries, weight, windowDays, next)
            else Follow(c, entries, weight, windowDays, cursor) == Responses(s[start..end], windowDays)
  {
    assert |Sorted(entries, weight)| == |entries|;
    PageAt(c, entries, weight, windowDays, cursor, start);
    hide *;
    NextIsFurther(c, entries, weight, windowDays, cursor);
    FollowUnfold(c, entries, weight, windowDays, cursor);
  }

  lemma PageAt(c: Codec, entries: seq<Entry>, weight: Weights, windowDays: nat, cursor: Option<string>, start: nat)
    requires StartOf(c, Sorted(entries, weight), weight, cursor) == Some(start)
    ensures var s := Sorted(entries, weight);
            var end := EndOf(start, |s|);
            PageOf(c, entries, weight, windowDays, cursor)
              == Page(Responses(s[start..end], windowDays),
                      if end < |s| then Some(Format(c, KeyOf(s[end - 1], weight))) else None)
  {
    hide Sorted, Format, Responses, KeyOf;
  }

  lemma FollowUnfold(c: Codec, entries: seq<Entry>, weight: Weights, windowDays: nat, cursor: Option<string>)
    requires Snapshot(c, entries, weight)
    ensures var p := PageOf(c, entries, weight, windowDays, cursor);
            && (p.BadCursor? ==> Follow(c, entries, weight, windowDays, cursor) == [])
            && (p.Page? && p.nextCursor.None? ==> Follow(c, entries, weight, windowDays, cursor) == p.rooms)
            && (p.Page? && p.nextCursor.Some? ==> Follow(c, entries, weight, windowDays, cursor)
                                                   == p.rooms + Follow(c, entries, weight, windowDays, p.nextCursor))
  {
    hide PageOf, Snapshot, Left;
  }

  lemma EndBounds(start: nat, n: nat)
    requires start <= n
    ensures start <= EndOf(start, n) <= n && (EndOf(start, n) < n ==> start < EndOf(start, n))
  {}

  lemma ResponsesSplit(s: seq<Entry>, start: nat, end: nat, windowDays: nat)
    requires start <= end <= |s|
    ensures Responses(s[start..], windowDays) == Responses(s[start..end], windowDays) + Responses(s[end..], windowDays)
    ensures end == |s| ==> Responses(s[start..], windowDays) == Responses(s[start..end], windowDays)
  {
    assert end == |s| ==> s[start..end] == s[start..];
  }

  lemma {:induction false} FollowFrom(c: Codec, entries: seq<Entry>, weight: Weights, windowDays: nat,
                                      cursor: Option<string>, start: nat)
    requires Snapshot(c, entries, weight) && StartOf(c, Sorted(entries, weight), weight, cursor) == Some(start)
    ensures Follow(c, entries, weight, windowDays, cursor) == Responses(Sorted(entries, weight)[start..], windowDays)
    decreases |entries| - start
  {
    assert start <= |Sorted(entries, weight)| == |entries|;
    hide *;
    FollowStep(c, entries, weight, windowDays, cursor, start);
    var s := Sorted(entries, weight);
    var end := EndOf(start, |s|);
    EndBounds(start, |s|);
    if end < |s| {
      FollowFrom(c, entries, weight, windowDays, Some(Format(c, KeyOf(s[end - 1], weight))), end);
    }
    ResponsesSplit(s, start, end, windowDays);
  }

  /** Over a fixed snapshot, following the cursors from the start shows every room exactly once, in strictly
      descending key order, and ends. */
  lemma EveryRoomOnce(c: Codec, entries: seq<Entry>, weight: Weights, windowDays: nat)
    requires Snapshot(c, entries, weight)
    ensures var s := Sorted(entries, weight);
            && Follow(c, entries, weight, windowDays, None) == Responses(s, windowDays)
            && multiset(s) == multiset(entries) && Descending(weight, s)
  {
    SortedDescending(entries, weight);
    FollowFrom(c, entries, weight, windowDays, None, 0);
    assert Sorted(entries, weight)[0..] == Sorted(entries, weight);
  }

  /** `a` is warmer than `b`; or equally warm and created later; or also created together and of the larger id. */
  ghost predicate ShownFirst(weight: Weights, a: Entry, b: Entry) {
    var warmA, warmB := RoomWarmth(a.sparkline, weight), RoomWarmth(b.sparkline, weight);
    || warmA > warmB
    || (warmA == warmB && a.room.createdAt != b.room.createdAt && LexLe(b.room.createdAt, a.room.createdAt))
    || (warmA == warmB && a.room.createdAt == b.room.createdAt && a.room.id != b.room.id && LexLe(b.room.id, a.room.id))
  }

  lemma ShownFirstIsGreater(weight: Weights, a: Entry, b: Entry)
    requires ShownFirst(weight, a, b)
    ensures !Less(KeyOf(a, weight), KeyOf(b, weight)) && KeyOf(a, weight) != KeyOf(b, weight)
  {
    hide LexLe;
    LexTotal(a.room.createdAt, b.room.createdAt);
    LexTotal(a.room.id, b.room.id);
  }

  lemma SameRoom(entries: seq<Entry>, weight: Weights, a: Entry, i: nat)
    requires DistinctIds(entries) && a in entries && i < |entries| && Sorted(entries, weight)[i].room.id == a.room.id
    ensures Sorted(entries, weight)[i] == a
  {
    var s := Sorted(entries, weight);
    assert multiset(s) == multiset(entries) && |s| == |entries|;
    hide Sorted;
    SameMembers(s, entries, s[i]);
  }

  /** A client that follows the cursors sees warm rooms before cold ones, and among equally warm ones the newer
      first. */
  lemma WarmestFirst(c: Codec, entries: seq<Entry>, weight: Weights, windowDays: nat, a: Entry, b: Entry, i: nat,
                     j: nat)
    requires Snapshot(c, entries, weight) && a in entries && b in entries && ShownFirst(weight, a, b)
    requires var shown := Follow(c, entries, weight, windowDays, None);
             i < |shown| && j < |shown| && shown[i].id == a.room.id && shown[j].id == b.room.id
    ensures i < j
  {
    var s := Sorted(entries, weight);
    EveryRoomOnce(c, entries, weight, windowDays);
    assert |s| == |entries|;
    hide Sorted, Follow, Less, LexLe, ShownFirst, KeyOf;
    SameRoom(entries, weight, a, i);
    SameRoom(entries, weight, b, j);
    ShownFirstIsGreater(weight, a, b);
  }

  /** Pages hold at most 30 rooms, and exactly 30 when a cursor announces more. */
  lemma PageSizes(c: Codec, entries: seq<Entry>, weight: Weights, windowDays: nat, cursor: Option<string>)
    ensures var r := PageOf(c, entries, weight, windowDays, cursor);
            r.Page? ==> |r.rooms| <= 30 && (r.nextCursor.Some? ==> |r.rooms| == 30)
  {
    hide Sorted, Format, StartOf;
  }

  /** Any readable cursor, even a stale one, yields exactly the rooms below its key, from the highest down. */
  lemma StaleCursor(c: Codec, entries: seq<Entry>, weight: Weights, windowDays: nat, k: Key)
    requires Snapshot(c, entries, weight) && Faithful(c, k.score) && NoBar(k.createdAt) && c.isUuid(k.id)
    ensures var s := Sorted(entries, weight);
            var i := Position(s, weight, k);
            && Follow(c, entries, weight, windowDays, Some(Format(c, k))) == Responses(s[i..], windowDays)
            && forall j :: 0 <= j < |s| ==> (j >= i <==> Less(KeyOf(s[j], weight), k))
  {
    hide Sorted, Format, ParseRoomCursor, Follow, Responses, LexLe, Faithful, DistinctIds;
    var s := Sorted(entries, weight);
    var i := Position(s, weight, k);
    CursorRoundTrip(c, k);
    FollowFrom(c, entries, weight, windowDays, Some(Format(c, k)), i);
    SortedDescending(entries, weight);
    forall j | i < j < |s| ensures Less(KeyOf(s[j], weight), k) {
      LessTransitive(KeyOf(s[j], weight), KeyOf(s[i], weight), k);
    }
  }
}
