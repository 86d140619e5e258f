/** Per-room activity sparklines from a bounded query, and when every exposed bucket is complete. */
module RoomActivity {
  import opened Options

  const MAX_ACTIVITY_WINDOW_DAYS: int := 7
  const SECONDS_PER_DAY: int := 86400

  /** An in-scope thread: its room, whether the reader may see it, and its last activity in seconds. */
  datatype Thread = Thread(room: string, visible: bool, at: nat)

  function DayOf(at: nat): int {
    at / SECONDS_PER_DAY
  }

  // ----- what the query returns -----

  ghost predicate NewestFirst(rows: seq<Thread>) {
    forall i, j :: 0 <= i <= j < |rows| ==> rows[i].at >= rows[j].at
  }

  /** `rows` is a possible answer: the newest `limit` threads since the cutoff, newest first, ties broken anyhow;
      `rest` was cut off by the limit and `older` lies before the cutoff. */
  ghost predicate Answer(threads: seq<Thread>, cutoff: nat, limit: nat, rows: seq<Thread>, rest: seq<Thread>,
                         older: seq<Thread>) {
    && multiset(threads) == multiset(rows + rest + older)
    && NewestFirst(rows)
    && (forall i :: 0 <= i < |rows| ==> rows[i].at >= cutoff)
    && (forall i :: 0 <= i < |rest| ==> rest[i].at >= cutoff)
    && (forall i :: 0 <= i < |older| ==> older[i].at < cutoff)
    && |rows| <= limit && (rest != [] ==> |rows| == limit)
    && (forall i, j :: 0 <= i < |rest| && 0 <= j < |rows| ==> rest[i].at <= rows[j].at)
  }

  /** Visible threads of a room on a day. */
  function CountOn(threads: seq<Thread>, room: string, day: int): nat {
    if threads == [] then 0
    else
      var t := threads[|threads| - 1];
      CountOn(threads[..|threads| - 1], room, day) + if t.visible && t.room == room && DayOf(t.at) == day then 1 else 0
  }

  /** Where those threads are. */
  ghost function Hits(threads: seq<Thread>, room: string, day: int): set<nat> {
    set i: nat | i < |threads| && threads[i].visible && threads[i].room == room && threads[i].at / 86400 == day
  }

  lemma {:induction false} CountOnMeaning(threads: seq<Thread>, room: string, day: int)
    ensures CountOn(threads, room, day) == |Hits(threads, room, day)|
  {
    if threads == [] {
      assert Hits(threads, room, day) == {};
    } else {
      var n := |threads| - 1;
      var init := threads[..n];
      CountOnMeaning(init, room, day);
      if n in Hits(threads, room, day) {
        assert Hits(threads, room, day) == Hits(init, room, day) + {n};
      } else {
        assert Hits(threads, room, day) == Hits(init, room, day);
      }
    }
  }

  // ----- the code -----

  function Visible(rows: seq<Thread>): (r: seq<Thread>)
    ensures forall i :: 0 <= i < |r| ==> r[i].visible && r[i] in rows
  {
    if rows == [] then []
    else Visible(rows[..|rows| - 1]) + if rows[|rows| - 1].visible then [rows[|rows| - 1]] else []
  }

  function Clamp(n: int): (r: int)
    ensures 1 <= r <= MAX_ACTIVITY_WINDOW_DAYS
  {
    if n < 1 then 1 else if n > MAX_ACTIVITY_WINDOW_DAYS then MAX_ACTIVITY_WINDOW_DAYS else n
  }

  /** A day difference cast to an unsigned size: a negative one becomes enormous. */
  function AsSize(n: int): int {
    if n < 0 then n + 0x1_0000_0000_0000_0000 else n
  }

  /** The number of days exposed. */
  function WindowDays(rows: seq<Thread>, limit: nat, today: int): (w: int)
    ensures 1 <= w <= MAX_ACTIVITY_WINDOW_DAYS
  {
    var visible := Visible(rows);
    if |rows| >= limit then
      Clamp(if visible == [] then MAX_ACTIVITY_WINDOW_DAYS else AsSize(today - DayOf(visible[|visible| - 1].at)))
    else MAX_ACTIVITY_WINDOW_DAYS
  }

  /** The first instant of the full window. */
  function Cutoff(today: int): int {
    (today - (MAX_ACTIVITY_WINDOW_DAYS - 1)) * SECONDS_PER_DAY
  }

  /** The days of the window, oldest first, ending today. */
  function WindowBounds(windowDays: int, today: int): (days: seq<int>)
    ensures |days| == Clamp(windowDays)
    ensures forall i :: 0 <= i < |days| ==> days[i] == today - (|days| - 1 - i)
  {
    var w := Clamp(windowDays);
    seq(w, i => today - (w - 1 - i))
  }

  /** The first window day that contains the timestamp. */
  method BucketFor(at: nat, days: seq<int>) returns (bucket: Option<nat>)
    ensures bucket.Some? ==> bucket.value < |days| && DayOf(at) == days[bucket.value]
    ensures bucket.None? ==> forall i :: 0 <= i < |days| ==> DayOf(at) != days[i]
  {
    for i := 0 to |days|
      invariant forall j :: 0 <= j < i ==> DayOf(at) != days[j]
    {
      if days[i] <= DayOf(at) < days[i] + 1 { return Some(i); }
    }
    return None;
  }

  datatype Activity = Activity(sparkline: seq<nat>, lastVisible: Option<nat>)

  /** Each room's sparkline counts its rows day by day; a room without an entry has none in the window. */
  ghost predicate Tallies(byRoom: map<string, Activity>, rows: seq<Thread>, days: seq<int>) {
    && (forall room :: room in byRoom ==> |byRoom[room].sparkline| == |days|)
    && forall room: string, b: nat :: b < |days| ==> Bucket(byRoom, room, b) == CountOn(rows, room, days[b])
  }

  function Bucket(byRoom: map<string, Activity>, room: string, b: nat): nat {
    if room in byRoom && b < |byRoom[room].sparkline| then byRoom[room].sparkline[b] else 0
  }

  lemma TallyOne(byRoom: map<string, Activity>, rows: seq<Thread>, days: seq<int>, row: Thread, bucket: Option<nat>,
                 byRoom': map<string, Activity>)
    requires Tallies(byRoom, rows, days) && row.visible
    requires forall i, j :: 0 <= i < j < |days| ==> days[i] < days[j]
    requires bucket.Some? ==> bucket.value < |days| && DayOf(row.at) == days[bucket.value]
    requires bucket.None? ==> forall i :: 0 <= i < |days| ==> DayOf(row.at) != days[i]
    requires bucket.None? ==> byRoom' == byRoom
    requires bucket.Some? ==> row.room in byRoom' && byRoom'.Keys == byRoom.Keys + {row.room}
    requires bucket.Some? ==> |byRoom'[row.room].sparkline| == |days|
    requires bucket.Some? ==> forall b: nat :: b < |days| ==>
               byRoom'[row.room].sparkline[b] == Bucket(byRoom, row.room, b) + if b == bucket.value then 1 else 0
    requires bucket.Some? ==> forall room :: room in byRoom && room != row.room ==> byRoom'[room] == byRoom[room]
    ensures Tallies(byRoom', rows + [row], days)
  {
    assert (rows + [row])[..|rows|] == rows;
    forall room: string, b: nat | b < |days| ensures Bucket(byRoom', room, b) == CountOn(rows + [row], room, days[b]) {
      assert Bucket(byRoom, room, b) == CountOn(rows, room, days[b]);
      if bucket.Some? && b != bucket.value { assert days[b] != days[bucket.value]; }
    }
  }

  /** A visible row of the room whose day is exposed. */
  predicate Exposed(t: Thread, room: string, days: seq<int>) {
    t.visible && t.room == room && DayOf(t.at) in days
  }

  /** The newest exposed activity of a room. */
  function LastIn(rows: seq<Thread>, room: string, days: seq<int>): Option<nat> {
    if rows == [] then None
    else
      var t, before := rows[|rows| - 1], LastIn(rows[..|rows| - 1], room, days);
      if Exposed(t, room, days) && (before.None? || t.at > before.value) then Some(t.at) else before
  }

  /** It is absent exactly when no row of the room is exposed; otherwise an exposed row has it and none is newer. */
  lemma {:induction false} LastInMeaning(rows: seq<Thread>, room: string, days: seq<int>)
    ensures var last := LastIn(rows, room, days);
            && (last.None? ==> forall i :: 0 <= i < |rows| ==> !Exposed(rows[i], room, days))
            && (last.Some? ==> exists i :: 0 <= i < |rows| && Exposed(rows[i], room, days) && rows[i].at == last.value)
            && (last.Some? ==> forall i :: 0 <= i < |rows| && Exposed(rows[i], room, days) ==> rows[i].at <= last.value)
  {
    if rows != [] {
      var init := rows[..|rows| - 1];
      LastInMeaning(init, room, days);
      var before := LastIn(init, room, days);
      if before.Some? {
        var i :| 0 <= i < |init| && Exposed(init[i], room, days) && init[i].at == before.value;
        assert rows[i] == init[i];
      }
      forall i | 0 <= i < |rows| && Exposed(rows[i], room, days)
        ensures LastIn(rows, room, days).Some? && rows[i].at <= LastIn(rows, room, days).value {
        if i < |init| { assert rows[i] == init[i]; }
      }
    }
  }

  /** The rooms with an entry are those with exposed activity, and each entry carries its newest. */
  ghost predicate Dated(byRoom: map<string, Activity>, rows: seq<Thread>, days: seq<int>) {
    forall room: string :: LastIn(rows, room, days) == if room in byRoom then byRoom[room].lastVisible else None
  }

  ghost predicate AllDated(byRoom: map<string, Activity>) {
    forall room :: room in byRoom ==> byRoom[room].lastVisible.Some?
  }

  lemma DateOne(byRoom: map<string, Activity>, rows: seq<Thread>, days: seq<int>, row: Thread,
                byRoom': map<string, Activity>)
    requires Dated(byRoom, rows, days) && row.visible
    requires DayOf(row.at) !in days ==> byRoom' == byRoom
    requires DayOf(row.at) in days ==>
               var old' := if row.room in byRoom then byRoom[row.room].lastVisible else None;
               && row.room in byRoom'
               && byRoom'[row.room].lastVisible == (if old'.None? || row.at > old'.value then Some(row.at) else old')
               && forall room :: room != row.room ==>
                    (room in byRoom' <==> room in byRoom) && (room in byRoom ==> byRoom'[room] == byRoom[room])
    ensures Dated(byRoom', rows + [row], days)
  {
    assert (rows + [row])[..|rows|] == rows;
  }

  lemma {:induction false} VisibleLast(rows: seq<Thread>, room: string, days: seq<int>)
    ensures LastIn(Visible(rows), room, days) == LastIn(rows, room, days)
  {
    if rows != [] {
      var init := rows[..|rows| - 1];
      VisibleLast(init, room, days);
      var row := rows[|rows| - 1];
      var visible := Visible(rows);
      if row.visible {
        assert visible == Visible(init) + [row] && visible[..|visible| - 1] == Visible(init);
      } else {
        assert visible == Visible(init);
      }
    }
  }

  /** Bucket the visible rows of the answer by room and day. */
  method ComputeScopedActivity(scope: seq<string>, rows: seq<Thread>, limit: nat, today: int)
    returns (byRoom: map<string, Activity>, windowDays: int)
    ensures scope == [] ==> byRoom == map[] && windowDays == MAX_ACTIVITY_WINDOW_DAYS
    ensures scope != [] ==> windowDays == WindowDays(rows, limit, today)
    ensures scope != [] && |rows| < limit ==> windowDays == 7
    ensures scope != [] ==> Tallies(byRoom, rows, WindowBounds(windowDays, today))
    ensures scope != [] ==> Dated(byRoom, rows, WindowBounds(windowDays, today)) && AllDated(byRoom)
  {
    if scope == [] { return map[], MAX_ACTIVITY_WINDOW_DAYS; }
    windowDays := WindowDays(rows, limit, today);
    var days := WindowBounds(windowDays, today);
    var visible := Visible(rows);
    byRoom := map[];
    for k := 0 to |visible|
      invariant Tallies(byRoom, visible[..k], days) && Dated(byRoom, visible[..k], days) && AllDated(byRoom)
    {
      var row := visible[k];
      var bucket := BucketFor(row.at, days);
      assert visible[..k + 1] == visible[..k] + [row];
      ghost var before := byRoom;
      if bucket.Some? {
        var entry := if row.room in byRoom then byRoom[row.room] else Activity(seq(|days|, _ => 0), None);
        var newer := entry.lastVisible.None? || row.at > entry.lastVisible.value;
        var sparkline := entry.sparkline[bucket.value := entry.sparkline[bucket.value] + 1];
        byRoom := byRoom[row.room := Activity(sparkline, if newer then Some(row.at) else entry.lastVisible)];
      }
      TallyOne(before, visible[..k], days, row, bucket, byRoom);
      DateOne(before, visible[..k], days, row, byRoom);
    }
    assert visible[..|visible|] == visible;
    forall room: string, b: nat | b < |days| ensures Bucket(byRoom, room, b) == CountOn(rows, room, days[b]) {
      VisibleCounts(rows, room, days[b]);
    }
    forall room: string ensures LastIn(visible, room, days) == LastIn(rows, room, days) {
      VisibleLast(rows, room, days);
    }
  }

  lemma {:induction false} VisibleCounts(rows: seq<Thread>, room: string, day: int)
    ensures CountOn(Visible(rows), room, day) == CountOn(rows, room, day)
  {
    if rows != [] {
      var init := Visible(rows[..|rows| - 1]);
      VisibleCounts(rows[..|rows| - 1], room, day);
      assert rows[|rows| - 1].visible ==> Visible(rows)[..|init|] == init;
      assert init + [] == init;
    }
  }

  // ----- completeness -----

  lemma {:induction false} CountConcat(a: seq<Thread>, b: seq<Thread>, room: string, day: int)
    ensures CountOn(a + b, room, day) == CountOn(a, room, day) + CountOn(b, room, day)
  {
    if b == [] {
      assert a + b == a;
    } else {
      CountConcat(a, b[..|b| - 1], room, day);
      assert (a + b)[..|a + b| - 1] == a + b[..|b| - 1];
    }
  }

  lemma CountRemoved(b: seq<Thread>, i: nat, room: string, day: int)
    requires i < |b|
    ensures CountOn(b, room, day) == CountOn(b[..i] + b[i + 1..], room, day) + CountOn([b[i]], room, day)
    ensures multiset(b[..i] + b[i + 1..]) == multiset(b) - multiset{b[i]}
  {
    var x := b[i];
    assert b == b[..i] + ([x] + b[i + 1..]);
    CountConcat(b[..i], [x] + b[i + 1..], room, day);
    CountConcat([x], b[i + 1..], room, day);
    CountConcat(b[..i], b[i + 1..], room, day);
  }

  /** Counting does not depend on the order of the table. */
  lemma {:induction false} CountPermuted(a: seq<Thread>, b: seq<Thread>, room: string, day: int)
    requires multiset(a) == multiset(b)
    ensures CountOn(a, room, day) == CountOn(b, room, day)
  {
    hide CountOn;
    if a == [] {
      assert |multiset(b)| == 0;
    } else {
      assert a[0] in multiset(b);
      var i :| 0 <= i < |b| && b[i] == a[0];
      CountRemoved(a, 0, room, day);
      CountRemoved(b, i, room, day);
      CountPermuted(a[..0] + a[1..], b[..i] + b[i + 1..], room, day);
    }
  }

  lemma {:induction false} CountElsewhere(threads: seq<Thread>, room: string, day: int)
    requires forall i :: 0 <= i < |threads| ==> DayOf(threads[i].at) != day
    ensures CountOn(threads, room, day) == 0
  {
    if threads != [] { CountElsewhere(threads[..|threads| - 1], room, day); }
  }

  /** Every exposed bucket shows the true number of visible in-scope threads of that day. */
  ghost predicate Complete(threads: seq<Thread>, rows: seq<Thread>, days: seq<int>) {
    forall room: string, b: nat :: b < |days| ==> CountOn(rows, room, days[b]) == CountOn(threads, room, days[b])
  }

  ghost function Days(rows: seq<Thread>, limit: nat, today: int): seq<int> {
    WindowBounds(WindowDays(rows, limit, today), today)
  }

  /** The limit was not reached, or the oldest row returned, visible or not, lies before the exposed window. */
  ghost predicate Guaranteed(rows: seq<Thread>, limit: nat, today: int) {
    |rows| < limit || (rows != [] && DayOf(rows[|rows| - 1].at) < Days(rows, limit, today)[0])
  }

  lemma DayMonotone(a: nat, b: nat)
    requires a <= b
    ensures DayOf(a) <= DayOf(b)
  {}

  lemma BeforeCutoff(at: nat, today: int)
    requires today >= MAX_ACTIVITY_WINDOW_DAYS && at < Cutoff(today)
    ensures DayOf(at) < today - (MAX_ACTIVITY_WINDOW_DAYS - 1)
  {}

  /** Row `i` is the oldest visible one: nothing visible follows it. */
  ghost predicate OldestVisible(rows: seq<Thread>, i: nat) {
    i < |rows| && rows[i].visible && forall j :: i < j < |rows| ==> !rows[j].visible
  }

  lemma {:induction false} LastOfVisible(rows: seq<Thread>, i: nat)
    requires OldestVisible(rows, i)
    ensures var visible := Visible(rows); visible != [] && visible[|visible| - 1] == rows[i]
  {
    var n := |rows| - 1;
    if i < n { LastOfVisible(rows[..n], i); }
  }

  lemma {:induction false} NoneVisible(rows: seq<Thread>)
    requires forall j :: 0 <= j < |rows| ==> !rows[j].visible
    ensures Visible(rows) == []
  {
    if rows != [] { NoneVisible(rows[..|rows| - 1]); }
  }

  /** The window ends today. It is a full week when the limit was not hit or nothing visible came back. */
  lemma WindowIsWeek(rows: seq<Thread>, limit: nat, today: int)
    ensures var days := Days(rows, limit, today); days != [] && days[|days| - 1] == today
    ensures |rows| < limit || (forall j :: 0 <= j < |rows| ==> !rows[j].visible) ==>
              var days := Days(rows, limit, today); |days| == 7 && days[0] == today - 6
  {
    if forall j :: 0 <= j < |rows| ==> !rows[j].visible { NoneVisible(rows); }
  }

  /** When the limit was hit, the window starts the day after the oldest visible row, which is `age` days old; it has
      at least one day and at most seven. A row dated in the future counts as very old. */
  lemma WindowFollowsOldest(rows: seq<Thread>, limit: nat, today: int, i: nat)
    requires |rows| >= limit && OldestVisible(rows, i) && rows[i].at / 86400 < 0x1_0000_0000
    requires 0 <= today < 0x1_0000_0000
    ensures var days, age := Days(rows, limit, today), today - rows[i].at / 86400;
            && (1 <= age <= 7 ==> |days| == age && days[0] == rows[i].at / 86400 + 1)
            && (age == 0 ==> days == [today])
            && (age > 7 || age < 0 ==> |days| == 7)
  {
    LastOfVisible(rows, i);
  }

  /** Under the guarantee every table that can give these rows is shown completely. */
  lemma GuaranteedComplete(threads: seq<Thread>, limit: nat, rows: seq<Thread>, rest: seq<Thread>,
                           older: seq<Thread>, today: int)
    requires today >= MAX_ACTIVITY_WINDOW_DAYS && Answer(threads, Cutoff(today), limit, rows, rest, older)
    requires Guaranteed(rows, limit, today)
    ensures Complete(threads, rows, Days(rows, limit, today))
  {
    var days := Days(rows, limit, today);
    forall room: string, b: nat | b < |days| ensures CountOn(rows, room, days[b]) == CountOn(threads, room, days[b]) {
      CountPermuted(threads, rows + rest + older, room, days[b]);
      CountConcat(rows + rest, older, room, days[b]);
      CountConcat(rows, rest, room, days[b]);
      forall i | 0 <= i < |older| ensures DayOf(older[i].at) != days[b] { BeforeCutoff(older[i].at, today); }
      CountElsewhere(older, room, days[b]);
      forall i | 0 <= i < |rest| ensures DayOf(rest[i].at) != days[b] { DayMonotone(rest[i].at, rows[|rows| - 1].at); }
      CountElsewhere(rest, room, days[b]);
    }
  }

  /** Without it some table gives the same rows and shows too little. */
  lemma Undercount(limit: nat, rows: seq<Thread>, today: int) returns (x: Thread, b: nat)
    requires today >= MAX_ACTIVITY_WINDOW_DAYS && limit > 0 && |rows| == limit && NewestFirst(rows)
    requires forall i :: 0 <= i < |rows| ==> rows[i].at >= Cutoff(today)
    requires !Guaranteed(rows, limit, today)
    ensures b < |Days(rows, limit, today)|
    ensures Answer(rows + [x] + [], Cutoff(today), limit, rows, [x], [])
    ensures CountOn(rows, x.room, Days(rows, limit, today)[b])
              < CountOn(rows + [x] + [], x.room, Days(rows, limit, today)[b])
  {
    var days := Days(rows, limit, today);
    var oldest := rows[|rows| - 1].at;
    x := Thread("", true, if DayOf(oldest) <= today then oldest else today * SECONDS_PER_DAY);
    if DayOf(oldest) > today { DayMonotone(x.at, oldest); }
    b := DayOf(x.at) - days[0];
    assert DayOf(x.at) == days[b];
    assert rows + [x] + [] == rows + [x];
    assert (rows + [x])[..|rows|] == rows;
  }

  /** The guarantee, which can be read off the returned rows, is exactly what completeness needs. */
  lemma CompletenessExact(limit: nat, rows: seq<Thread>, today: int)
    requires today >= MAX_ACTIVITY_WINDOW_DAYS && limit > 0 && |rows| <= limit && NewestFirst(rows)
    requires forall i :: 0 <= i < |rows| ==> rows[i].at >= Cutoff(today)
    ensures Guaranteed(rows, limit, today) <==>
              forall threads, rest, older :: Answer(threads, Cutoff(today), limit, rows, rest, older) ==>
                                               Complete(threads, rows, Days(rows, limit, today))
  {
    if Guaranteed(rows, limit, today) {
      forall threads, rest, older | Answer(threads, Cutoff(today), limit, rows, rest, older)
        ensures Complete(threads, rows, Days(rows, limit, today))
      {
        GuaranteedComplete(threads, limit, rows, rest, older, today);
      }
    } else {
      var x, b := Undercount(limit, rows, today);
      assert !Complete(rows + [x] + [], rows, Days(rows, limit, today));
    }
  }

  /** With a limit of one, a newest row of today, hidden or visible, hides a second thread of the same moment: today's
      bucket misses it. Hidden is the case of a hit limit without a visible row, visible that of a one-day window. */
  lemma TodayUndercounted(visible: bool, today: int)
    requires today >= MAX_ACTIVITY_WINDOW_DAYS
    ensures var at := today * SECONDS_PER_DAY;
            var rows, rest := [Thread("r", visible, at)], [Thread("r", true, at)];
            && Answer(rows + rest + [], Cutoff(today), 1, rows, rest, [])
            && !Guaranteed(rows, 1, today) && !Complete(rows + rest + [], rows, Days(rows, 1, today))
  {
    var at := today * SECONDS_PER_DAY;
    var rows, rest := [Thread("r", visible, at)], [Thread("r", true, at)];
    assert DayOf(at) == today;
    var days := Days(rows, 1, today);
    assert days[|days| - 1] == today;
    assert rows[..0] == [] && rest[..0] == [];
    assert CountOn(rest, "r", today) == 1 && CountOn([], "r", today) == 0;
    CountConcat(rows + rest, [], "r", today);
    CountConcat(rows, rest, "r", today);
    assert CountOn(rows, "r", days[|days| - 1]) != CountOn(rows + rest + [], "r", days[|days| - 1]);
  }

  /** In particular it holds when some visible row came back and the oldest visible one is dated before today. */
  lemma VisibleBeforeToday(limit: nat, rows: seq<Thread>, today: int)
    requires today >= MAX_ACTIVITY_WINDOW_DAYS && NewestFirst(rows)
    requires forall i :: 0 <= i < |rows| ==> rows[i].at >= Cutoff(today)
    requires var visible := Visible(rows); visible != [] && DayOf(visible[|visible| - 1].at) < today
    ensures Guaranteed(rows, limit, today)
  {
    var visible := Visible(rows);
    var last := visible[|visible| - 1];
    var i :| 0 <= i < |rows| && rows[i] == last;
    DayMonotone(rows[|rows| - 1].at, last.at);
    assert DayOf(last.at) >= today - (MAX_ACTIVITY_WINDOW_DAYS - 1);
  }
}
