/** Rolling 24-hour request statistics and their meaning as functions of the full event log. */
module Metrics {
  import opened Options
  import opened Reals
  import opened Sorting

  const ROLLING_WINDOW_HOURS: nat := 24
  const MS_PER_HOUR: nat := 3_600_000
  const HISTOGRAM_CAPACITY: nat := 1024

  datatype StatusClass = Success | ClientError | ServerError

  function Classify(status: nat): StatusClass {
    if 200 <= status <= 399 then Success
    else if 400 <= status <= 499 then ClientError
    else ServerError
  }

  datatype Event = Event(at: nat, status: nat, latency: real)

  function HourOf(at: nat): nat {
    at / MS_PER_HOUR
  }

  // ----- reference meaning: counting in the log -----

  /** Which events a counter counts: all of them, or one class. */
  datatype Filter = All | Only(cls: StatusClass)

  predicate Counts(f: Filter, e: Event) {
    f.All? || f.cls == Classify(e.status)
  }

  function InHour(log: seq<Event>, h: nat, f: Filter): nat {
    if log == [] then 0
    else
      var e := log[|log| - 1];
      InHour(log[..|log| - 1], h, f) + if HourOf(e.at) == h && Counts(f, e) then 1 else 0
  }

  /** Events of the last 24 clock hours, the current one included. */
  predicate Recent(now: nat, e: Event) {
    HourOf(e.at) <= HourOf(now) < HourOf(e.at) + ROLLING_WINDOW_HOURS
  }

  function InWindow(log: seq<Event>, now: nat, f: Filter): nat {
    if log == [] then 0
    else
      var e := log[|log| - 1];
      InWindow(log[..|log| - 1], now, f) + if Recent(now, e) && Counts(f, e) then 1 else 0
  }

  function Cumulative(log: seq<Event>, f: Filter): nat {
    if log == [] then 0
    else Cumulative(log[..|log| - 1], f) + if Counts(f, log[|log| - 1]) then 1 else 0
  }

  // ----- the same counts, written out -----

  /** The status classes by their bounds. */
  ghost predicate InClass(f: Filter, status: nat) {
    match f
    case All => true
    case Only(Success) => 200 <= status <= 399
    case Only(ClientError) => 400 <= status <= 499
    case Only(ServerError) => status <= 199 || status >= 500
  }

  ghost predicate LastDay(now: nat, at: nat) {
    at / 3_600_000 <= now / 3_600_000 <= at / 3_600_000 + 23
  }

  ghost function DayEvents(log: seq<Event>, now: nat, f: Filter): set<nat> {
    set i: nat | i < |log| && LastDay(now, log[i].at) && InClass(f, log[i].status)
  }

  ghost function AllEvents(log: seq<Event>, f: Filter): set<nat> {
    set i: nat | i < |log| && InClass(f, log[i].status)
  }

  /** The window counters count the events whose clock hour is this one or one of the 23 before. */
  lemma {:induction false} WindowMeaning(log: seq<Event>, now: nat, f: Filter)
    ensures InWindow(log, now, f) == |DayEvents(log, now, f)|
  {
    hide LastDay, InClass, Recent, Counts;
    if log == [] {
      assert DayEvents(log, now, f) == {};
    } else {
      var n := |log| - 1;
      var init := log[..n];
      WindowMeaning(init, now, f);
      EventCounts(log[n], now, f);
      if LastDay(now, log[n].at) && InClass(f, log[n].status) {
        assert DayEvents(log, now, f) == DayEvents(init, now, f) + {n};
      } else {
        assert DayEvents(log, now, f) == DayEvents(init, now, f);
      }
    }
  }

  /** The cumulative counters count every event. */
  lemma {:induction false} CumulativeMeaning(log: seq<Event>, f: Filter)
    ensures Cumulative(log, f) == |AllEvents(log, f)|
  {
    hide InClass, Counts;
    if log == [] {
      assert AllEvents(log, f) == {};
    } else {
      var n := |log| - 1;
      var init := log[..n];
      CumulativeMeaning(init, f);
      EventCounts(log[n], 0, f);
      if InClass(f, log[n].status) {
        assert AllEvents(log, f) == AllEvents(init, f) + {n};
      } else {
        assert AllEvents(log, f) == AllEvents(init, f);
      }
    }
  }

  lemma EventCounts(e: Event, now: nat, f: Filter)
    ensures Counts(f, e) <==> InClass(f, e.status)
    ensures Recent(now, e) <==> LastDay(now, e.at)
  {}

  ghost predicate ClockForward(log: seq<Event>) {
    forall i, j :: 0 <= i <= j < |log| ==> log[i].at <= log[j].at
  }

  // ----- one slot of the ring -----

  /** The slot holds the newest hour that maps to it, with that hour's count. */
  ghost predicate SlotTied(log: seq<Event>, slot: nat, hour: Option<nat>, count: nat, f: Filter) {
    match hour
    case None => count == 0 && forall i :: 0 <= i < |log| ==> HourOf(log[i].at) % ROLLING_WINDOW_HOURS != slot
    case Some(h) =>
      && h % ROLLING_WINDOW_HOURS == slot && count == InHour(log, h, f) && Happened(log, h)
      && forall i :: 0 <= i < |log| && HourOf(log[i].at) % ROLLING_WINDOW_HOURS == slot ==> HourOf(log[i].at) <= h
  }

  ghost predicate Happened(log: seq<Event>, h: nat) {
    exists i :: 0 <= i < |log| && HourOf(log[i].at) == h
  }

  /** What the ring does to a slot's tag and count when an event arrives. */
  function Rotated(hour: Option<nat>, count: nat, now: nat): nat {
    if hour == Some(HourOf(now)) then count else 0
  }

  lemma {:induction false} NothingInHour(log: seq<Event>, h: nat, f: Filter)
    requires forall i :: 0 <= i < |log| ==> HourOf(log[i].at) != h
    ensures InHour(log, h, f) == 0
  {
    if log != [] { NothingInHour(log[..|log| - 1], h, f); }
  }

  lemma SlotRecords(log: seq<Event>, slot: nat, hour: Option<nat>, count: nat, f: Filter, e: Event)
    requires SlotTied(log, slot, hour, count, f) && ClockForward(log + [e])
    ensures var h := HourOf(e.at);
            if h % ROLLING_WINDOW_HOURS == slot
            then SlotTied(log + [e], slot, Some(h), Rotated(hour, count, e.at) + (if Counts(f, e) then 1 else 0), f)
            else SlotTied(log + [e], slot, hour, count, f)
  {
    var h := HourOf(e.at);
    var log' := log + [e];
    assert log'[..|log|] == log && log'[|log|] == e;
    forall i | 0 <= i < |log| ensures HourOf(log[i].at) <= h {
      assert log'[i].at <= log'[|log|].at;
      HourMonotone(log[i].at, e.at);
    }
    assert HourOf(log'[|log|].at) == h;
    if hour.Some? {
      var i :| 0 <= i < |log| && HourOf(log[i].at) == hour.value;
      assert HourOf(log'[i].at) == hour.value;
    }
    if h % ROLLING_WINDOW_HOURS == slot && hour != Some(h) {
      NothingInHour(log, h, f);
    }
  }

  lemma HourMonotone(a: nat, b: nat)
    requires a <= b
    ensures HourOf(a) <= HourOf(b)
  {}

  // ----- reading the ring -----

  /** What a read adds for one slot. */
  function Fresh(hour: Option<nat>, count: nat, now: nat): nat {
    match hour
    case None => 0
    case Some(h) => if SaturatingSub(HourOf(now), h) < ROLLING_WINDOW_HOURS then count else 0
  }

  function SaturatingSub(a: nat, b: nat): nat {
    if a < b then 0 else a - b
  }

  /** Recent events that map to one slot. */
  function InSlot(log: seq<Event>, now: nat, slot: nat, f: Filter): nat {
    if log == [] then 0
    else
      var e := log[|log| - 1];
      InSlot(log[..|log| - 1], now, slot, f)
      + if HourOf(e.at) % ROLLING_WINDOW_HOURS == slot && Recent(now, e) && Counts(f, e) then 1 else 0
  }

  lemma {:induction false} InSlotIsHour(log: seq<Event>, now: nat, slot: nat, f: Filter, h: nat)
    requires h % ROLLING_WINDOW_HOURS == slot && h <= HourOf(now) < h + ROLLING_WINDOW_HOURS
    ensures InSlot(log, now, slot, f) == InHour(log, h, f)
  {
    if log != [] {
      InSlotIsHour(log[..|log| - 1], now, slot, f, h);
      SameResidue(HourOf(log[|log| - 1].at), h, HourOf(now));
    }
  }

  /** A window of 24 consecutive hours contains each residue once. */
  lemma SameResidue(a: nat, b: nat, now: nat)
    requires b <= now < b + ROLLING_WINDOW_HOURS
    ensures a % ROLLING_WINDOW_HOURS == b % ROLLING_WINDOW_HOURS && a <= now < a + ROLLING_WINDOW_HOURS <==> a == b
  {}

  lemma {:induction false} InSlotNone(log: seq<Event>, now: nat, slot: nat, f: Filter)
    requires forall i :: 0 <= i < |log| && HourOf(log[i].at) % ROLLING_WINDOW_HOURS == slot ==> !Recent(now, log[i])
    ensures InSlot(log, now, slot, f) == 0
  {
    if log != [] { InSlotNone(log[..|log| - 1], now, slot, f); }
  }

  /** A tied slot contributes exactly its share of the window. */
  lemma SlotReads(log: seq<Event>, slot: nat, hour: Option<nat>, count: nat, f: Filter, now: nat)
    requires SlotTied(log, slot, hour, count, f) && forall i :: 0 <= i < |log| ==> log[i].at <= now
    ensures Fresh(hour, count, now) == InSlot(log, now, slot, f)
  {
    match hour
    case None => InSlotNone(log, now, slot, f);
    case Some(h) =>
      var i :| 0 <= i < |log| && HourOf(log[i].at) == h;
      HourMonotone(log[i].at, now);
      if HourOf(now) < h + ROLLING_WINDOW_HOURS {
        InSlotIsHour(log, now, slot, f, h);
      } else {
        InSlotNone(log, now, slot, f);
      }
  }

  /** The slots' shares add up to the window. */
  function SlotSum(log: seq<Event>, now: nat, slots: nat, f: Filter): nat {
    if slots == 0 then 0 else SlotSum(log, now, slots - 1, f) + InSlot(log, now, slots - 1, f)
  }

  lemma {:induction false} SlotSumSnoc(log: seq<Event>, now: nat, slots: nat, f: Filter)
    requires log != []
    ensures var e := log[|log| - 1];
            SlotSum(log, now, slots, f) == SlotSum(log[..|log| - 1], now, slots, f)
              + if HourOf(e.at) % ROLLING_WINDOW_HOURS < slots && Recent(now, e) && Counts(f, e) then 1 else 0
  {
    if slots > 0 { SlotSumSnoc(log, now, slots - 1, f); }
  }

  lemma {:induction false} SlotSumEmpty(now: nat, slots: nat, f: Filter)
    ensures SlotSum([], now, slots, f) == 0
  {
    if slots > 0 { SlotSumEmpty(now, slots - 1, f); }
  }

  lemma {:induction false} SlotsMakeWindow(log: seq<Event>, now: nat, f: Filter)
    ensures SlotSum(log, now, ROLLING_WINDOW_HOURS, f) == InWindow(log, now, f)
  {
    if log == [] {
      SlotSumEmpty(now, ROLLING_WINDOW_HOURS, f);
    } else {
      SlotsMakeWindow(log[..|log| - 1], now, f);
      SlotSumSnoc(log, now, ROLLING_WINDOW_HOURS, f);
    }
  }

  // ----- per-hour buckets -----

  datatype HourBucket = HourBucket(hour: Option<nat>, total: nat, success: nat, clientError: nat, serverError: nat) {
    function Of(f: Filter): nat {
      match f
      case All => total
      case Only(Success) => success
      case Only(ClientError) => clientError
      case Only(ServerError) => serverError
    }

    function Plus(cls: StatusClass): HourBucket {
      match cls
      case Success => this.(total := total + 1, success := success + 1)
      case ClientError => this.(total := total + 1, clientError := clientError + 1)
      case ServerError => this.(total := total + 1, serverError := serverError + 1)
    }
  }

  const EMPTY: HourBucket := HourBucket(None, 0, 0, 0, 0)

  datatype Counters = Counters(total: nat, success: nat, clientError: nat, serverError: nat) {
    function Of(f: Filter): nat {
      match f
      case All => total
      case Only(Success) => success
      case Only(ClientError) => clientError
      case Only(ServerError) => serverError
    }

    function Plus(cls: StatusClass): Counters {
      match cls
      case Success => this.(total := total + 1, success := success + 1)
      case ClientError => this.(total := total + 1, clientError := clientError + 1)
      case ServerError => this.(total := total + 1, serverError := serverError + 1)
    }
  }

  /** Every slot is tied to the log, for every filter. */
  ghost predicate RingTied(log: seq<Event>, buckets: seq<HourBucket>) {
    && |buckets| == ROLLING_WINDOW_HOURS
    && forall s: nat, f: Filter :: s < ROLLING_WINDOW_HOURS ==> SlotTied(log, s, buckets[s].hour, buckets[s].Of(f), f)
  }

  function RecordIn(b: HourBucket, now: nat, cls: StatusClass): HourBucket {
    (if b.hour == Some(HourOf(now)) then b else EMPTY.(hour := Some(HourOf(now)))).Plus(cls)
  }

  lemma RingRecords(log: seq<Event>, buckets: seq<HourBucket>, e: Event)
    requires RingTied(log, buckets) && ClockForward(log + [e])
    ensures var slot := HourOf(e.at) % ROLLING_WINDOW_HOURS;
            RingTied(log + [e], buckets[slot := RecordIn(buckets[slot], e.at, Classify(e.status))])
  {
    var slot := HourOf(e.at) % ROLLING_WINDOW_HOURS;
    var after := buckets[slot := RecordIn(buckets[slot], e.at, Classify(e.status))];
    forall s: nat, f: Filter | s < ROLLING_WINDOW_HOURS
      ensures SlotTied(log + [e], s, after[s].hour, after[s].Of(f), f)
    {
      SlotRecords(log, s, buckets[s].hour, buckets[s].Of(f), f, e);
    }
  }

  // ----- the classes -----

  function FreshSum(buckets: seq<HourBucket>, n: nat, now: nat, f: Filter): nat
    requires n <= |buckets|
  {
    if n == 0 then 0
    else FreshSum(buckets, n - 1, now, f) + Fresh(buckets[n - 1].hour, buckets[n - 1].Of(f), now)
  }

  lemma {:induction false} FreshSumIsSlots(log: seq<Event>, buckets: seq<HourBucket>, n: nat, now: nat, f: Filter)
    requires RingTied(log, buckets) && n <= ROLLING_WINDOW_HOURS && forall i :: 0 <= i < |log| ==> log[i].at <= now
    ensures FreshSum(buckets, n, now, f) == SlotSum(log, now, n, f)
  {
    if n > 0 {
      FreshSumIsSlots(log, buckets, n - 1, now, f);
      SlotReads(log, n - 1, buckets[n - 1].hour, buckets[n - 1].Of(f), f, now);
    }
  }

  /** Reading the ring counts the window. */
  lemma {:induction false} RingReads(log: seq<Event>, buckets: seq<HourBucket>, now: nat, f: Filter)
    requires RingTied(log, buckets) && forall i :: 0 <= i < |log| ==> log[i].at <= now
    ensures FreshSum(buckets, ROLLING_WINDOW_HOURS, now, f) == InWindow(log, now, f)
  {
    FreshSumIsSlots(log, buckets, ROLLING_WINDOW_HOURS, now, f);
    SlotsMakeWindow(log, now, f);
  }

  datatype TimedSample = TimedSample(at: nat, value: real)

  /** The newest `capacity` samples; a capacity of zero never evicts. */
  ghost function Newest(history: seq<TimedSample>, capacity: nat): seq<TimedSample> {
    if capacity == 0 || |history| <= capacity then history else history[|history| - capacity..]
  }

  class RingHistogram {
    var samples: seq<TimedSample>
    const capacity: nat
    ghost var history: seq<TimedSample>

    ghost predicate Valid()
      reads this
    {
      samples == Newest(history, capacity)
    }

    constructor (capacity: nat)
      ensures Valid() && history == [] && this.capacity == capacity
    {
      samples, this.capacity, history := [], capacity, [];
    }

    method Push(at: nat, value: real)
      requires Valid()
      modifies this
      ensures Valid() && history == old(history) + [TimedSample(at, value)]
    {
      if |samples| == capacity && samples != [] {
        samples := samples[1..];
      }
      samples := samples + [TimedSample(at, value)];
      history := history + [TimedSample(at, value)];
    }

    /** Nearest-rank quantile of the retained samples not older than `since`. */
    method QuantileSince(q: real, since: nat) returns (r: Option<real>)
      requires Valid()
      ensures r == QuantileOf(ValuesSince(Newest(history, capacity), since), q)
    {
      var values: seq<real> := [];
      for i := 0 to |samples|
        invariant values == ValuesSince(samples[..i], since)
      {
        assert samples[..i + 1][..i] == samples[..i];
        if samples[i].at >= since { values := values + [samples[i].value]; }
      }
      assert samples[..|samples|] == samples;
      r := QuantileOf(values, q);
    }
  }

  function ValuesSince(samples: seq<TimedSample>, since: nat): seq<real> {
    if samples == [] then []
    else
      var x := samples[|samples| - 1];
      ValuesSince(samples[..|samples| - 1], since) + if x.at >= since then [x.value] else []
  }

  ghost function Since(samples: seq<TimedSample>, since: nat): set<nat> {
    set i: nat | i < |samples| && samples[i].at >= since
  }

  /** The values of the samples not older than `since`: all of them and no others. */
  lemma {:induction false} ValuesSinceMeaning(samples: seq<TimedSample>, since: nat, v: real)
    ensures |ValuesSince(samples, since)| == |Since(samples, since)|
    ensures v in ValuesSince(samples, since) <==> exists i :: i in Since(samples, since) && samples[i].value == v
  {
    if samples == [] {
      assert Since(samples, since) == {};
    } else {
      var n := |samples| - 1;
      var init := samples[..n];
      ValuesSinceMeaning(init, since, v);
      assert Since(samples, since) == Since(init, since) + if samples[n].at >= since then {n} else {};
      if i :| i in Since(init, since) && init[i].value == v { assert i in Since(samples, since); }
      if i :| i in Since(samples, since) && samples[i].value == v { assert i == n || i in Since(init, since); }
    }
  }

  // ----- quantiles -----

  predicate RealLe(a: real, b: real) {
    a <= b
  }

  function Clamp(q: real): real {
    if q < 0.0 then 0.0 else if q > 1.0 then 1.0 else q
  }

  /** The rounded position of quantile `q` among `n` sorted values. */
  function QuantileIndex(n: nat, q: real): (i: nat)
    requires n > 0
    ensures i < n
  {
    var x := (n - 1) as real * Clamp(q);
    IndexInRange(n, Clamp(q));
    (x + 0.5).Floor
  }

  lemma IndexInRange(n: nat, q: real)
    requires n > 0 && 0.0 <= q <= 1.0
    ensures 0.0 <= (n - 1) as real * q <= (n - 1) as real
  {
    var m := (n - 1) as real;
    assert m * q <= m * 1.0;
  }

  function QuantileOf(values: seq<real>, q: real): Option<real> {
    if values == [] then None else Some(Sort(RealLe, values)[QuantileIndex(|values|, q)])
  }

  lemma IndexMonotone(n: nat, p: real, q: real)
    requires n > 0 && p <= q
    ensures QuantileIndex(n, p) <= QuantileIndex(n, q)
  {
    var m := (n - 1) as real;
    MulMonotone(m, m, Clamp(p), Clamp(q));
    FloorMonotone(m * Clamp(p) + 0.5, m * Clamp(q) + 0.5);
  }

  lemma FloorMonotone(x: real, y: real)
    requires x <= y
    ensures x.Floor <= y.Floor
  {}

  /** The quantile is the value at the rank nearest to `(n - 1) * q` in ascending order, ties upward. */
  lemma NearestRank(values: seq<real>, q: real, ascending: seq<real>, i: nat)
    requires values != [] && 0.0 <= q <= 1.0
    requires multiset(ascending) == multiset(values)
    requires forall a, b :: 0 <= a < b < |ascending| ==> ascending[a] <= ascending[b]
    requires (|values| - 1) as real * q - 0.5 < i as real <= (|values| - 1) as real * q + 0.5
    ensures i < |ascending| && QuantileOf(values, q) == Some(ascending[i])
  {
    assert |ascending| == |multiset(ascending)| == |values|;
    IndexIs(|values|, q, i);
    SortOrdered(RealLe, values);
    OrderedUnique(RealLe, ascending, Sort(RealLe, values));
  }

  lemma IndexIs(n: nat, q: real, i: nat)
    requires n > 0 && 0.0 <= q <= 1.0 && (n - 1) as real * q - 0.5 < i as real <= (n - 1) as real * q + 0.5
    ensures QuantileIndex(n, q) == i
  {
    var x := (n - 1) as real * q + 0.5;
    assert i as real <= x < (i + 1) as real;
  }

  /** The median of two values is the larger one. */
  lemma MedianOfTwo()
    ensures QuantileOf([10.0, 20.0], 0.5) == Some(20.0)
  {
    NearestRank([10.0, 20.0], 0.5, [10.0, 20.0], 1);
  }

  /** Quantiles exist exactly for non-empty data, are data points, lie between the extremes at 0 and 1, and grow with
      q. */
  lemma QuantilesMeaning(values: seq<real>, p: real, q: real)
    requires p <= q
    ensures QuantileOf(values, q) == None <==> values == []
    ensures values != [] ==> QuantileOf(values, q).value in values
    ensures values != [] ==> QuantileOf(values, p).value <= QuantileOf(values, q).value
    ensures values != [] ==> forall v :: v in values ==>
              QuantileOf(values, 0.0).value <= v <= QuantileOf(values, 1.0).value
  {
    if values != [] {
      var sorted := Sort(RealLe, values);
      SortOrdered(RealLe, values);
      IndexMonotone(|values|, p, q);
      var i, j := QuantileIndex(|values|, p), QuantileIndex(|values|, q);
      SameMembers(sorted, values, sorted[j]);
      assert i == j || RealLe(sorted[i], sorted[j]);
      assert QuantileIndex(|values|, 0.0) == 0;
      assert QuantileIndex(|values|, 1.0) == |values| - 1;
      forall v | v in values ensures sorted[0] <= v <= sorted[|values| - 1] {
        SameMembers(sorted, values, v);
        var k :| 0 <= k < |sorted| && sorted[k] == v;
        assert k == 0 || RealLe(sorted[0], sorted[k]);
        assert k == |values| - 1 || RealLe(sorted[k], sorted[|values| - 1]);
      }
    }
  }

  // ----- per-route statistics -----

  ghost function Samples(log: seq<Event>): seq<TimedSample> {
    seq(|log|, i requires 0 <= i < |log| => TimedSample(log[i].at, log[i].latency))
  }

  datatype RouteSnapshot = RouteSnapshot(window: Counters, cumulative: Counters,
                                         p50: Option<real>, p95: Option<real>, p99: Option<real>)

  class RouteStats {
    var buckets: array<HourBucket>
    var cumulative: Counters
    var latency: RingHistogram
    ghost var log: seq<Event>

    /** The state is a function of the log; the ring is, provided the clock never ran backwards. */
    ghost predicate Valid()
      reads this, buckets, latency
    {
      && buckets.Length == ROLLING_WINDOW_HOURS
      && (forall f: Filter :: cumulative.Of(f) == Cumulative(log, f))
      && (ClockForward(log) ==> RingTied(log, buckets[..]))
      && latency.Valid() && latency.capacity == HISTOGRAM_CAPACITY && latency.history == Samples(log)
    }

    constructor ()
      ensures Valid() && log == [] && fresh(buckets) && fresh(latency)
    {
      buckets := new HourBucket[ROLLING_WINDOW_HOURS](_ => EMPTY);
      cumulative := Counters(0, 0, 0, 0);
      latency := new RingHistogram(HISTOGRAM_CAPACITY);
      log := [];
    }

    method RecordAt(status: nat, latencyMs: real, now: nat)
      requires Valid()
      modifies this, buckets, latency
      ensures Valid() && buckets == old(buckets) && latency == old(latency)
      ensures log == old(log) + [Event(now, status, latencyMs)]
    {
      ghost var e := Event(now, status, latencyMs);
      ghost var before := buckets[..];
      var nowHour := now / MS_PER_HOUR;
      var slot := nowHour % ROLLING_WINDOW_HOURS;
      var b := buckets[slot];
      if b.hour != Some(nowHour) {
        b := EMPTY.(hour := Some(nowHour));
      }
      var cls := Classify(status);
      buckets[slot] := b.Plus(cls);
      cumulative := cumulative.Plus(cls);
      latency.Push(now, latencyMs);
      assert buckets[..] == before[slot := RecordIn(before[slot], now, cls)];
      assert (log + [e])[..|log|] == log;
      if ClockForward(log + [e]) {
        assert ClockForward(log) by {
          forall i, j | 0 <= i <= j < |log| ensures log[i].at <= log[j].at {
            assert (log + [e])[i].at <= (log + [e])[j].at;
          }
        }
        RingRecords(log, before, e);
      }
      assert Samples(log + [e]) == Samples(log) + [TimedSample(now, latencyMs)];
      log := log + [e];
    }

    /** The last 24 clock hours, all-time totals, and latency quantiles over the retained samples of the last day. */
    method SnapshotAt(now: nat) returns (snap: RouteSnapshot)
      requires Valid()
      ensures ClockForward(log) && (forall i :: 0 <= i < |log| ==> log[i].at <= now) ==>
                forall f: Filter :: snap.window.Of(f) == InWindow(log, now, f)
      ensures forall f: Filter :: snap.cumulative.Of(f) == Cumulative(log, f)
      ensures var values :=
                ValuesSince(Newest(Samples(log), HISTOGRAM_CAPACITY),
                    SaturatingSub(now, ROLLING_WINDOW_HOURS * MS_PER_HOUR));
              snap.p50 == QuantileOf(values, 0.50) && snap.p95 == QuantileOf(values, 0.95)
                  && snap.p99 == QuantileOf(values, 0.99)
    {
      var nowHour := now / MS_PER_HOUR;
      var window := Counters(0, 0, 0, 0);
      for i := 0 to buckets.Length
        invariant forall f: Filter :: window.Of(f) == FreshSum(buckets[..], i, now, f)
      {
        var b := buckets[i];
        if b.hour.Some? && SaturatingSub(nowHour, b.hour.value) < ROLLING_WINDOW_HOURS {
          window := Counters(window.total + b.total, window.success + b.success,
                             window.clientError + b.clientError, window.serverError + b.serverError);
        }
      }
      if ClockForward(log) && forall i :: 0 <= i < |log| ==> log[i].at <= now {
        forall f: Filter ensures window.Of(f) == InWindow(log, now, f) { RingReads(log, buckets[..], now, f); }
      }
      var cutoff := SaturatingSub(now, ROLLING_WINDOW_HOURS * MS_PER_HOUR);
      var p50 := latency.QuantileSince(0.50, cutoff);
      var p95 := latency.QuantileSince(0.95, cutoff);
      var p99 := latency.QuantileSince(0.99, cutoff);
      snap := RouteSnapshot(window, cumulative, p50, p95, p99);
    }
  }

  // ----- the plain counter -----

  class HourlyCounter {
    var buckets: array<(Option<nat>, nat)>
    ghost var log: seq<Event>

    ghost predicate Valid()
      reads this, buckets
    {
      && buckets.Length == ROLLING_WINDOW_HOURS
      && (ClockForward(log) ==>
            forall s: nat :: s < ROLLING_WINDOW_HOURS ==> SlotTied(log, s, buckets[s].0, buckets[s].1, All))
    }

    constructor ()
      ensures Valid() && log == [] && fresh(buckets)
    {
      buckets := new (Option<nat>, nat)[ROLLING_WINDOW_HOURS](_ => (None, 0));
      log := [];
    }

    method RecordAt(now: nat)
      requires Valid()
      modifies this, buckets
      ensures Valid() && buckets == old(buckets) && |log| == |old(log)| + 1
      ensures log[..|old(log)|] == old(log) && log[|old(log)|].at == now
    {
      ghost var e := Event(now, 200, 0.0);
      ghost var before := buckets[..];
      var nowHour := now / MS_PER_HOUR;
      var slot := nowHour % ROLLING_WINDOW_HOURS;
      if buckets[slot].0 != Some(nowHour) {
        buckets[slot] := (Some(nowHour), 0);
      }
      buckets[slot] := (buckets[slot].0, buckets[slot].1 + 1);
      if ClockForward(log + [e]) {
        assert ClockForward(log) by {
          forall i, j | 0 <= i <= j < |log| ensures log[i].at <= log[j].at {
            assert (log + [e])[i].at <= (log + [e])[j].at;
          }
        }
        forall s: nat | s < ROLLING_WINDOW_HOURS ensures SlotTied(log + [e], s, buckets[s].0, buckets[s].1, All) {
          assert before[s] == old(buckets[s]);
          SlotRecords(log, s, before[s].0, before[s].1, All, e);
        }
      }
      log := log + [e];
    }

    method Count24hAt(now: nat) returns (total: nat)
      requires Valid()
      ensures ClockForward(log) && (forall i :: 0 <= i < |log| ==> log[i].at <= now) ==>
                total == InWindow(log, now, All)
    {
      var nowHour := now / MS_PER_HOUR;
      total := 0;
      for i := 0 to buckets.Length
        invariant ClockForward(log) && (forall i :: 0 <= i < |log| ==> log[i].at <= now) ==>
                  total == SlotSum(log, now, i, All)
      {
        var b := buckets[i];
        if b.0.Some? && SaturatingSub(nowHour, b.0.value) < ROLLING_WINDOW_HOURS {
          total := total + b.1;
        }
        if ClockForward(log) && forall i :: 0 <= i < |log| ==> log[i].at <= now {
          SlotReads(log, i, b.0, b.1, All, now);
        }
      }
      SlotsMakeWindow(log, now, All);
    }
  }
}
