/**
 Hourly transaction rollups: each pass recomputes a window that starts at the stored watermark or two hours back,
 at most a day long, then moves the watermark. The two writes are separate statements.
 */
module Rollup {
  import opened Wrappers

  /** Nanoseconds; instants count from Go's zero time. */
  const HOUR := 3_600_000_000_000

  const TRAILING_HOURS := 2

  const MAX_BACKFILL_HOURS := 24

  datatype Raw = Raw(id: nat, project: nat, name: string, start: int, duration: real, status: string)

  datatype Key = Key(project: nat, name: string, hour: int)

  datatype Stats = Stats(count: nat, failures: nat, p50: real, p95: real, p99: real)

  /** percentile_cont of the rows' durations. */
  type Percentile = (real, set<Raw>) -> real

  function Trunc(t: int): int { t / HOUR * HOUR }

  predicate Aligned(t: int) { t % HOUR == 0 }

  function KeyOf(r: Raw): Key { Key(r.project, r.name, Trunc(r.start)) }

  function RowsAt(raw: set<Raw>, k: Key): set<Raw> { set r | r in raw && KeyOf(r) == k }

  function Aggregate(pct: Percentile, rows: set<Raw>): Stats {
    var failed := set r | r in rows && r.status != "" && r.status != "ok";
    Stats(|rows|, |failed|, pct(0.5, rows), pct(0.95, rows), pct(0.99, rows))
  }

  function InWindow(raw: set<Raw>, lo: int, hi: int): set<Raw> { set r | r in raw && lo <= r.start < hi }

  function Keys(raw: set<Raw>): set<Key> { set r | r in raw :: KeyOf(r) }

  /** The upsert: GROUP BY over the window's rows, overwriting. */
  function Upserted(pct: Percentile, rollups: map<Key, Stats>, raw: set<Raw>, lo: int, hi: int): map<Key, Stats> {
    rollups + map k | k in Keys(InWindow(raw, lo, hi)) :: Aggregate(pct, RowsAt(InWindow(raw, lo, hi), k))
  }

  function WindowStart(now: int, watermark: Option<int>): int {
    var start := Trunc(now) - TRAILING_HOURS * HOUR;
    if watermark.Some? && watermark.value < start then watermark.value else start
  }

  function WindowEnd(now: int, start: int): int {
    var end, max := Trunc(now) + HOUR, start + MAX_BACKFILL_HOURS * HOUR;
    if max < end then max else end
  }

  /** The rollup table and the stored watermark. */
  datatype Db = Db(rollups: map<Key, Stats>, watermark: Option<int>)

  /** A pass that runs through with no arrival in between. */
  function Pass(pct: Percentile, raw: set<Raw>, db: Db, now: int): Db {
    var start := WindowStart(now, db.watermark);
    var end := WindowEnd(now, start);
    Db(Upserted(pct, db.rollups, raw, start, end), Some(end))
  }

  // ---- one window ----

  lemma TruncIsHour(t: int)
    ensures Trunc(t) % 3_600_000_000_000 == 0 && Trunc(t) <= t < Trunc(t) + 3_600_000_000_000
  {
  }

  /** Between aligned bounds a row is inside exactly when its hour is. */
  lemma HourInside(t: int, lo: int, hi: int)
    requires Aligned(lo) && Aligned(hi)
    ensures lo <= t < hi <==> lo <= Trunc(t) < hi
  {
    var a, b, q := lo / HOUR, hi / HOUR, t / HOUR;
    assert lo == a * HOUR && hi == b * HOUR;
    assert q * HOUR <= t < (q + 1) * HOUR;
  }

  lemma TruncMonotone(s: int, t: int)
    requires s <= t
    ensures Trunc(s) <= Trunc(t)
  {
    assert s / HOUR <= t / HOUR;
  }

  /** A window of whole hours aggregates each of its hours over all the hour's rows, and touches nothing else. */
  lemma WindowIsExact(pct: Percentile, rollups: map<Key, Stats>, raw: set<Raw>, lo: int, hi: int, k: Key)
    requires Aligned(lo) && Aligned(hi)
    ensures var after := Upserted(pct, rollups, raw, lo, hi);
            if k in Keys(raw) && lo <= k.hour < hi then k in after && after[k] == Aggregate(pct, RowsAt(raw, k))
            else (k in after <==> k in rollups) && (k in rollups ==> after[k] == rollups[k])
  {
    var inside := InWindow(raw, lo, hi);
    if k in Keys(raw) && lo <= k.hour < hi {
      var r :| r in raw && KeyOf(r) == k;
      HourInside(r.start, lo, hi);
      assert r in inside;
      forall x | x in RowsAt(raw, k) ensures x in inside {
        HourInside(x.start, lo, hi);
      }
      assert RowsAt(inside, k) == RowsAt(raw, k);
    } else if k in Keys(inside) {
      var r :| r in inside && KeyOf(r) == k;
      HourInside(r.start, lo, hi);
      assert false;
    }
  }

  /** The transactions of a name that started in the hour from `hour` on. */
  function StartedIn(raw: set<Raw>, project: nat, name: string, hour: int): set<Raw> {
    set r | r in raw && r.project == project && r.name == name && hour <= r.start < hour + 3_600_000_000_000
  }

  /**
   What a rollup row says: how many transactions of its name started in its hour, how many of them ended in another
   status than none or ok, and the 50th, 95th and 99th percentile of their durations.
   */
  lemma RollupSays(pct: Percentile, raw: set<Raw>, k: Key)
    requires k.hour % 3_600_000_000_000 == 0
    ensures var rows, stats := StartedIn(raw, k.project, k.name, k.hour), Aggregate(pct, RowsAt(raw, k));
            && (k in Keys(raw) <==> rows != {})
            && stats.count == |rows| && stats.failures == |set r | r in rows && r.status != "" && r.status != "ok"|
            && stats.p50 == pct(0.5, rows) && stats.p95 == pct(0.95, rows) && stats.p99 == pct(0.99, rows)
  {
    forall r | r in raw ensures KeyOf(r) == k <==> r in StartedIn(raw, k.project, k.name, k.hour) {
      HourInside(r.start, k.hour, k.hour + HOUR);
      TruncIsHour(r.start);
    }
    assert RowsAt(raw, k) == StartedIn(raw, k.project, k.name, k.hour);
    if k in Keys(raw) {
      var r :| r in raw && KeyOf(r) == k;
      assert r in StartedIn(raw, k.project, k.name, k.hour);
    }
  }

  predicate AlignedMark(watermark: Option<int>) { watermark.Some? ==> Aligned(watermark.value) }

  /** The stored watermark is never ahead of the clock's hour plus one. */
  predicate BehindClock(watermark: Option<int>, now: int) { watermark.Some? ==> watermark.value <= Trunc(now) + HOUR }

  /** Windows are whole hours, leave no gap after the watermark, last at most a day and never move it back. */
  lemma WindowShape(now: int, watermark: Option<int>)
    requires AlignedMark(watermark) && BehindClock(watermark, now)
    ensures var start := WindowStart(now, watermark);
            var end := WindowEnd(now, start);
            && Aligned(start) && Aligned(end) && start < end <= Trunc(now) + HOUR
                && end - start <= MAX_BACKFILL_HOURS * HOUR
            && (watermark.Some? ==> start <= watermark.value <= end)
            && (watermark.Some? && watermark.value <= Trunc(now) ==> watermark.value < end)
  {
    TruncIsHour(now);
  }

  /** Every raw-bearing hour of the window holds the aggregate of all its rows, and nothing else changed. */
  ghost predicate Recomputed(pct: Percentile, raw: set<Raw>, before: map<Key, Stats>, after: map<Key, Stats>, lo: int,
      hi: int) {
    forall k: Key ::
      if k in Keys(raw) && lo <= k.hour < hi then k in after && after[k] == Aggregate(pct, RowsAt(raw, k))
      else (k in after <==> k in before) && (k in before ==> after[k] == before[k])
  }

  /**
   What a pass owes its caller: some window of whole hours, at most a day, from the watermark or two hours back,
   up to the current hour plus one if that is within the day, is recomputed and the watermark moves to its end.
   */
  ghost predicate PassKept(pct: Percentile, raw: set<Raw>, before: Db, after: Db, now: int, start: int) {
    && after.watermark.Some? && var end := after.watermark.value;
    && start % 3_600_000_000_000 == 0 && end % 3_600_000_000_000 == 0
    && start < end <= Trunc(now) + 3_600_000_000_000 && end - start <= 24 * 3_600_000_000_000
    && start <= Trunc(now) - 2 * 3_600_000_000_000
    && (start == Trunc(now) - 2 * 3_600_000_000_000 || Some(start) == before.watermark)
    && (before.watermark.Some? ==> start <= before.watermark.value <= end)
    && (end == Trunc(now) + 3_600_000_000_000 || end == start + 24 * 3_600_000_000_000)
    && Recomputed(pct, raw, before.rollups, after.rollups, start, end)
  }

  lemma WindowIsRecomputed(pct: Percentile, rollups: map<Key, Stats>, raw: set<Raw>, lo: int, hi: int)
    requires Aligned(lo) && Aligned(hi)
    ensures Recomputed(pct, raw, rollups, Upserted(pct, rollups, raw, lo, hi), lo, hi)
  {
    forall k: Key
      ensures var after := Upserted(pct, rollups, raw, lo, hi);
              if k in Keys(raw) && lo <= k.hour < hi then k in after && after[k] == Aggregate(pct, RowsAt(raw, k))
              else (k in after <==> k in rollups) && (k in rollups ==> after[k] == rollups[k])
    {
      WindowIsExact(pct, rollups, raw, lo, hi, k);
    }
  }

  lemma PassKeeps(pct: Percentile, raw: set<Raw>, db: Db, now: int)
    requires AlignedMark(db.watermark) && BehindClock(db.watermark, now)
    ensures PassKept(pct, raw, db, Pass(pct, raw, db, now), now, WindowStart(now, db.watermark))
  {
    var start := WindowStart(now, db.watermark);
    WindowShape(now, db.watermark);
    WindowIsRecomputed(pct, db.rollups, raw, start, WindowEnd(now, start));
  }

  class RollupStore {
    var raw: set<Raw>
    var rollups: map<Key, Stats>
    var lastHour: Option<int>

    function Current(): Db
      reads this
    {
      Db(rollups, lastHour)
    }

    /** Reads the watermark. */
    method Window(now: int) returns (windowStart: int, windowEnd: int)
      ensures windowStart == WindowStart(now, lastHour) && windowEnd == WindowEnd(now, windowStart)
    {
      windowStart := Trunc(now) - TRAILING_HOURS * HOUR;
      if lastHour.Some? && lastHour.value < windowStart {
        windowStart := lastHour.value;
      }
      windowEnd := Trunc(now) + HOUR;
      var max := windowStart + MAX_BACKFILL_HOURS * HOUR;
      if max < windowEnd {
        windowEnd := max;
      }
    }

    /** Recomputes the window, then stores the watermark. */
    method RunRollupPass(pct: Percentile, now: int)
      modifies this
      ensures raw == old(raw) && Current() == Pass(pct, raw, old(Current()), now)
      ensures AlignedMark(old(lastHour)) && BehindClock(old(lastHour), now) ==>
                exists start :: PassKept(pct, raw, old(Current()), Current(), now, start)
    {
      var windowStart, windowEnd := Window(now);
      ghost var before := Current();
      rollups := Upserted(pct, rollups, raw, windowStart, windowEnd);
      lastHour := Some(windowEnd);
      if AlignedMark(before.watermark) && BehindClock(before.watermark, now) {
        PassKeeps(pct, raw, before, now);
      }
    }
  }

  // ---- passes within one hour ----

  /** The raw table a pass finds and its clock reading. */
  datatype Input = Input(raw: set<Raw>, now: int)

  function Passes(pct: Percentile, db: Db, ins: seq<Input>): Db {
    if ins == [] then db else
    var last := ins[|ins| - 1];
    Pass(pct, last.raw, Passes(pct, db, ins[..|ins| - 1]), last.now)
  }

  predicate WithinHour(ins: seq<Input>, hour: int) { forall i :: 0 <= i < |ins| ==> Trunc(ins[i].now) == hour }

  /** The number of passes a lag takes, in hours, rounded up to whole days. */
  function Ceil24(lag: nat): nat { (lag + 23) / 24 }

  lemma {:induction false} PassesAdvance(pct: Percentile, db: Db, ins: seq<Input>, hour: int)
    requires db.watermark.Some? && Aligned(db.watermark.value) && db.watermark.value <= hour + HOUR
    requires Aligned(hour) && WithinHour(ins, hour)
    ensures var w := Passes(pct, db, ins).watermark;
            && w.Some? && Aligned(w.value) && w.value <= hour + HOUR
            && (w.value == hour + HOUR || w.value >= db.watermark.value + |ins| * (MAX_BACKFILL_HOURS * HOUR))
  {
    if ins == [] {
    } else {
      var init, last := ins[..|ins| - 1], ins[|ins| - 1];
      PassesAdvance(pct, db, init, hour);
      assert Trunc(last.now) == hour;
      WindowShape(last.now, Passes(pct, db, init).watermark);
    }
  }

  /** The backlog is drained within ceil(lag / 24) passes, whatever rows arrive between them. */
  lemma {:induction false} CatchesUp(pct: Percentile, db: Db, ins: seq<Input>, hour: int, lag: nat)
    requires db.watermark.Some? && Aligned(db.watermark.value) && db.watermark.value + lag * HOUR == hour + HOUR
    requires Aligned(hour) && WithinHour(ins, hour) && |ins| >= Ceil24(lag)
    ensures Passes(pct, db, ins).watermark == Some(hour + HOUR)
  {
    PassesAdvance(pct, db, ins, hour);
    assert |ins| * 24 >= lag;
  }

  /** Recomputing part of a window from the same raw rows changes nothing. */
  lemma {:induction false} RecomputeIsNoOp(pct: Percentile, rollups: map<Key, Stats>, raw: set<Raw>, lo: int, hi: int,
      from: int)
    requires Aligned(lo) && Aligned(hi) && Aligned(from) && lo <= from
    ensures var once := Upserted(pct, rollups, raw, lo, hi); Upserted(pct, once, raw, from, hi) == once
  {
    var once := Upserted(pct, rollups, raw, lo, hi);
    var twice := Upserted(pct, once, raw, from, hi);
    forall k ensures (k in twice <==> k in once) && (k in once ==> twice[k] == once[k]) {
      WindowIsExact(pct, rollups, raw, lo, hi, k);
      WindowIsExact(pct, once, raw, from, hi, k);
    }
  }

  lemma CaughtUpExactlyWhen(now: int, watermark: Option<int>)
    requires AlignedMark(watermark) && BehindClock(watermark, now)
    ensures WindowEnd(now, WindowStart(now, watermark)) == Trunc(now) + HOUR <==>
              watermark.None? || Trunc(now) + HOUR - watermark.value <= MAX_BACKFILL_HOURS * HOUR
  {
  }

  /**
   Running the pass again changes nothing exactly when the watermark was at most a day behind the current hour plus
   one, or missing.
   */
  lemma {:induction false} RepeatIsNoOpExactlyWhen(pct: Percentile, raw: set<Raw>, db: Db, now: int)
    requires AlignedMark(db.watermark) && BehindClock(db.watermark, now)
    ensures var once := Pass(pct, raw, db, now);
            Pass(pct, raw, once, now) == once <==>
              db.watermark.None? || Trunc(now) + 3_600_000_000_000 - db.watermark.value <= 24 * 3_600_000_000_000
  {
    var once := Pass(pct, raw, db, now);
    CaughtUpExactlyWhen(now, db.watermark);
    WindowShape(now, db.watermark);
    WindowShape(now, once.watermark);
    if once.watermark == Some(Trunc(now) + HOUR) {
      RecomputeIsNoOp(pct, db.rollups, raw, WindowStart(now, db.watermark), Trunc(now) + HOUR,
          WindowStart(now, once.watermark));
    }
  }

  lemma FirstWindow(now: int)
    ensures var start := WindowStart(now, None);
            start == Trunc(now) - TRAILING_HOURS * HOUR && WindowEnd(now, start) == Trunc(now) + HOUR
            && Aligned(start) && Aligned(Trunc(now) + HOUR)
  {
    TruncIsHour(now);
    WindowShape(now, None);
  }

  /** Every raw-bearing hour up to the current one has its rollups. */
  ghost predicate Drained(pct: Percentile, raw: set<Raw>, rollups: map<Key, Stats>, now: int) {
    forall k: Key :: k in Keys(raw) && k.hour <= Trunc(now) ==>
        k in rollups && rollups[k] == Aggregate(pct, RowsAt(raw, k))
  }

  /** No raw row up to the current hour started more than two hours before it. */
  predicate NoBacklog(raw: set<Raw>, now: int) {
    forall r :: r in raw && Trunc(r.start) <= Trunc(now) ==> r.start >= Trunc(now) - 2 * 3_600_000_000_000
  }

  lemma HourOfBacklog(r: Raw, now: int)
    ensures r.start >= Trunc(now) - TRAILING_HOURS * HOUR <==> KeyOf(r).hour >= Trunc(now) - TRAILING_HOURS * HOUR
  {
    FirstWindow(now);
    TruncIsHour(r.start);
    HourInside(r.start, Trunc(now) - TRAILING_HOURS * HOUR, Trunc(r.start) + HOUR);
  }

  /** A first pass, from an empty table without a watermark, drains the raw rows exactly when there is no backlog. */
  lemma FirstPassDrainsExactlyWhen(pct: Percentile, raw: set<Raw>, now: int)
    ensures Drained(pct, raw, Pass(pct, raw, Db(map[], None), now).rollups, now) <==> NoBacklog(raw, now)
  {
    var after, lo := Pass(pct, raw, Db(map[], None), now).rollups, Trunc(now) - TRAILING_HOURS * HOUR;
    FirstWindow(now);
    if NoBacklog(raw, now) {
      forall k: Key | k in Keys(raw) && k.hour <= Trunc(now)
        ensures k in after && after[k] == Aggregate(pct, RowsAt(raw, k))
      {
        var r :| r in raw && KeyOf(r) == k;
        HourOfBacklog(r, now);
        WindowIsExact(pct, map[], raw, lo, Trunc(now) + HOUR, k);
      }
    }
    if Drained(pct, raw, after, now) {
      forall r | r in raw && Trunc(r.start) <= Trunc(now) ensures r.start >= lo {
        assert KeyOf(r) in Keys(raw);
        HourOfBacklog(r, now);
        WindowIsExact(pct, map[], raw, lo, Trunc(now) + HOUR, KeyOf(r));
      }
    }
  }

  // ---- every run ----

  type PassId = nat

  /** A pass under way: the watermark it read, its window, and whether the rollups are written. */
  datatype Running = Running(seen: Option<int>, start: int, end: int, done: bool)

  /**
   Any number of passes at once. `origin` is where the pass that first stored a watermark began; `asOf` holds the raw
   table each hour was last aggregated from.
   */
  datatype State = State(clock: int, raw: set<Raw>, db: Db, passes: map<PassId, Running>, origin: int,
                         asOf: map<int, set<Raw>>)

  datatype Step = Tick(t: int) | Arrive(r: Raw) | Begin(id: PassId) | Write(id: PassId) | Advance(id: PassId)
                | Crash(id: PassId)

  function HoursOf(lo: int, hi: int): set<int> { set h | lo <= h < hi && Aligned(h) }

  function Begun(s: State, id: PassId): State {
    var start := WindowStart(s.clock, s.db.watermark);
    s.(passes := s.passes[id := Running(s.db.watermark, start, WindowEnd(s.clock, start), false)])
  }

  function Written(pct: Percentile, s: State, id: PassId): State
    requires id in s.passes
  {
    var p := s.passes[id];
    s.(db := s.db.(rollups := Upserted(pct, s.db.rollups, s.raw, p.start, p.end)),
        passes := s.passes[id := p.(done := true)],
       asOf := s.asOf + map h | h in HoursOf(p.start, p.end) :: s.raw)
  }

  function Advanced(s: State, id: PassId): State
    requires id in s.passes
  {
    s.(db := s.db.(watermark := Some(s.passes[id].end)), passes := s.passes - {id},
       origin := if s.db.watermark.None? then s.passes[id].start else s.origin)
  }

  predicate NextBy(pct: Percentile, s: State, step: Step, s': State) {
    match step
    case Tick(t) => t >= s.clock && s' == s.(clock := t)
    case Arrive(r) => s' == s.(raw := s.raw + {r})
    case Begin(id) => id !in s.passes && s' == Begun(s, id)
    case Write(id) => id in s.passes && !s.passes[id].done && s' == Written(pct, s, id)
    case Advance(id) => id in s.passes && s.passes[id].done && s' == Advanced(s, id)
    case Crash(id) => id in s.passes && s' == s.(passes := s.passes - {id})
  }

  ghost predicate Next(pct: Percentile, s: State, s': State) { exists step :: NextBy(pct, s, step, s') }

  ghost predicate IsRun(pct: Percentile, ss: seq<State>) {
    && |ss| > 0 && ss[0].db == Db(map[], None) && ss[0].passes == map[] && ss[0].asOf == map[]
    && forall i :: 0 <= i < |ss| - 1 ==> Next(pct, ss[i], ss[i + 1])
  }

  // ---- what holds however passes overlap ----

  /** The window is one its pass could have computed at or before the current clock. */
  predicate PassOk(s: State, p: Running) {
    && Aligned(p.start) && Aligned(p.end) && p.start < p.end <= Trunc(s.clock) + HOUR
    && p.start <= Trunc(s.clock) - TRAILING_HOURS * HOUR
    && (p.seen.Some? ==> p.start <= p.seen.value <= p.end)
    && (p.done ==> HoursOf(p.start, p.end) <= s.asOf.Keys)
  }

  predicate PassesOk(s: State) { forall id :: id in s.passes ==> PassOk(s, s.passes[id]) }

  /** A stored row is the aggregate of its hour as of the last statement over it, and every such hour has its rows. */
  ghost predicate RollupsOk(pct: Percentile, s: State) {
    forall k: Key :: if k.hour in s.asOf && k in Keys(s.asOf[k.hour])
                then k in s.db.rollups && s.db.rollups[k] == Aggregate(pct, RowsAt(s.asOf[k.hour], k))
                else k !in s.db.rollups
  }

  ghost predicate StateOk(pct: Percentile, s: State) {
    && AlignedMark(s.db.watermark) && BehindClock(s.db.watermark, s.clock)
    && PassesOk(s) && RollupsOk(pct, s) && forall h :: h in s.asOf ==> s.asOf[h] <= s.raw
  }

  lemma {:induction false} TickKeepsOk(pct: Percentile, s: State, t: int, s': State)
    requires StateOk(pct, s) && NextBy(pct, s, Tick(t), s')
    ensures StateOk(pct, s')
  {
    TruncMonotone(s.clock, t);
  }

  lemma {:induction false} BeginKeepsOk(pct: Percentile, s: State, id: PassId, s': State)
    requires StateOk(pct, s) && NextBy(pct, s, Begin(id), s')
    ensures StateOk(pct, s')
  {
    WindowShape(s.clock, s.db.watermark);
  }

  lemma {:induction false} WriteKeepsRollups(pct: Percentile, s: State, id: PassId, s': State, k: Key)
    requires StateOk(pct, s) && NextBy(pct, s, Write(id), s')
    ensures if k.hour in s'.asOf && k in Keys(s'.asOf[k.hour])
            then k in s'.db.rollups && s'.db.rollups[k] == Aggregate(pct, RowsAt(s'.asOf[k.hour], k))
            else k !in s'.db.rollups
  {
    assert PassOk(s, s.passes[id]);
    WindowIsExact(pct, s.db.rollups, s.raw, s.passes[id].start, s.passes[id].end, k);
    if k in Keys(s.raw) {
      var r :| r in s.raw && KeyOf(r) == k;
      TruncIsHour(r.start);
    }
    if k.hour in s.asOf && k in Keys(s.asOf[k.hour]) {
      var r :| r in s.asOf[k.hour] && KeyOf(r) == k;
      assert r in s.raw;
    }
  }

  lemma {:induction false} WriteKeepsPasses(pct: Percentile, s: State, id: PassId, s': State)
    requires PassesOk(s) && NextBy(pct, s, Write(id), s')
    ensures PassesOk(s')
  {
    forall j | j in s'.passes ensures PassOk(s', s'.passes[j]) {
      assert PassOk(s, s.passes[j]);
    }
  }

  lemma {:induction false} WriteKeepsOk(pct: Percentile, s: State, id: PassId, s': State)
    requires StateOk(pct, s) && NextBy(pct, s, Write(id), s')
    ensures StateOk(pct, s')
  {
    WriteKeepsPasses(pct, s, id, s');
    forall k: Key ensures if k.hour in s'.asOf && k in Keys(s'.asOf[k.hour])
                          then k in s'.db.rollups && s'.db.rollups[k] == Aggregate(pct, RowsAt(s'.asOf[k.hour], k))
                          else k !in s'.db.rollups {
      WriteKeepsRollups(pct, s, id, s', k);
    }
  }

  lemma {:induction false} AdvanceKeepsOk(pct: Percentile, s: State, id: PassId, s': State)
    requires StateOk(pct, s) && NextBy(pct, s, Advance(id), s')
    ensures StateOk(pct, s')
  {
    assert PassOk(s, s.passes[id]);
    forall j | j in s'.passes ensures PassOk(s', s'.passes[j]) {
      assert PassOk(s, s.passes[j]);
    }
  }

  lemma {:induction false} StepKeepsOk(pct: Percentile, s: State, step: Step, s': State)
    requires StateOk(pct, s) && NextBy(pct, s, step, s')
    ensures StateOk(pct, s')
  {
    match step
    case Tick(t) => TickKeepsOk(pct, s, t, s');
    case Arrive(_) =>
    case Begin(id) => BeginKeepsOk(pct, s, id, s');
    case Write(id) => WriteKeepsOk(pct, s, id, s');
    case Advance(id) => AdvanceKeepsOk(pct, s, id, s');
    case Crash(_) =>
  }

  lemma {:induction false} StepAt(pct: Percentile, ss: seq<State>, n: nat) returns (step: Step)
    requires IsRun(pct, ss) && 0 < n < |ss|
    ensures NextBy(pct, ss[n - 1], step, ss[n])
  {
    assert Next(pct, ss[n - 1], ss[n - 1 + 1]);
    step :| NextBy(pct, ss[n - 1], step, ss[n]);
  }

  lemma {:induction false} RunKeepsOk(pct: Percentile, ss: seq<State>, n: nat)
    requires IsRun(pct, ss) && n < |ss|
    ensures StateOk(pct, ss[n])
  {
    if n == 0 {
    } else {
      RunKeepsOk(pct, ss, n - 1);
      var step := StepAt(pct, ss, n);
      StepKeepsOk(pct, ss[n - 1], step, ss[n]);
    }
  }

  /**
   However passes overlap, the statement of any pass gives each raw-bearing hour of its window the aggregate of that
   hour's rows right then, touches no other row, and starts at or before the watermark the pass read.
   */
  lemma EveryWriteIsExact(pct: Percentile, ss: seq<State>, n: nat, id: PassId, k: Key)
    requires IsRun(pct, ss) && n + 1 < |ss| && NextBy(pct, ss[n], Write(id), ss[n + 1])
    ensures var s, s', p := ss[n], ss[n + 1], ss[n].passes[id];
            && (p.seen.Some? ==> p.start <= p.seen.value)
            && if k in Keys(s.raw) && p.start <= k.hour < p.end
               then k in s'.db.rollups && s'.db.rollups[k] == Aggregate(pct, RowsAt(s.raw, k))
               else
                 && (k in s'.db.rollups <==> k in s.db.rollups)
                 && (k in s.db.rollups ==> s'.db.rollups[k] == s.db.rollups[k])
  {
    RunKeepsOk(pct, ss, n);
    var p := ss[n].passes[id];
    assert PassOk(ss[n], p);
    WindowIsExact(pct, ss[n].db.rollups, ss[n].raw, p.start, p.end, k);
  }

  // ---- the backlog in a run ----

  /** Nothing reaches below `lo`. */
  predicate Above(s: State, lo: int) {
    && lo <= Trunc(s.clock) - TRAILING_HOURS * HOUR
    && (s.db.watermark.Some? ==> lo <= s.db.watermark.value)
    && (forall id :: id in s.passes ==> lo <= s.passes[id].start < s.passes[id].end)
    && (forall h :: h in s.asOf ==> lo <= h)
  }

  lemma {:induction false} StepStaysAbove(pct: Percentile, s: State, step: Step, s': State, lo: int)
    requires Above(s, lo) && StateOk(pct, s) && NextBy(pct, s, step, s')
    ensures Above(s', lo)
  {
    match step
    case Tick(t) => TruncMonotone(s.clock, t);
    case Begin(_) => WindowShape(s.clock, s.db.watermark);
    case _ =>
  }

  lemma {:induction false} RunStaysAbove(pct: Percentile, ss: seq<State>, n: nat)
    requires IsRun(pct, ss) && n < |ss|
    ensures Above(ss[n], Trunc(ss[0].clock) - TRAILING_HOURS * HOUR)
  {
    if n == 0 {
    } else {
      RunStaysAbove(pct, ss, n - 1);
      RunKeepsOk(pct, ss, n - 1);
      var step := StepAt(pct, ss, n);
      StepStaysAbove(pct, ss[n - 1], step, ss[n], Trunc(ss[0].clock) - TRAILING_HOURS * HOUR);
    }
  }

  /** From an empty start, no pass of any run ever aggregates an hour more than two before the run's first clock. */
  lemma BacklogIsNeverDrained(pct: Percentile, ss: seq<State>, n: nat, k: Key)
    requires IsRun(pct, ss) && n < |ss| && k.hour < Trunc(ss[0].clock) - 2 * 3_600_000_000_000
    ensures k.hour !in ss[n].asOf && k !in ss[n].db.rollups
  {
    RunStaysAbove(pct, ss, n);
    RunKeepsOk(pct, ss, n);
  }

  // ---- the watermark when passes overlap ----

  /** Nobody who is under way would move the watermark back. */
  predicate NobodyBehind(s: State) {
    s.db.watermark.Some? ==> forall id :: id in s.passes ==> s.db.watermark.value <= s.passes[id].end
  }

  /** A pass stores its watermark while another, whose window ends earlier, is under way. */
  predicate Overtakes(s: State, step: Step) {
    && step.Advance? && step.id in s.passes
    && exists p :: p in s.passes && p != step.id && s.passes[p].end < s.passes[step.id].end
  }

  ghost predicate OvertakesNext(pct: Percentile, s: State, s': State) {
    exists step :: NextBy(pct, s, step, s') && Overtakes(s, step)
  }

  ghost predicate InOrder(pct: Percentile, ss: seq<State>, n: nat)
    requires n < |ss|
  {
    forall i :: 0 < i <= n ==> !OvertakesNext(pct, ss[i - 1], ss[i])
  }

  lemma {:induction false} StepKeepsNobodyBehind(pct: Percentile, s: State, step: Step, s': State)
    requires StateOk(pct, s) && NobodyBehind(s) && NextBy(pct, s, step, s') && !Overtakes(s, step)
    ensures NobodyBehind(s')
  {
    match step
    case Begin(_) => WindowShape(s.clock, s.db.watermark);
    case _ =>
  }

  lemma {:induction false} RunKeepsNobodyBehind(pct: Percentile, ss: seq<State>, n: nat)
    requires IsRun(pct, ss) && n < |ss| && InOrder(pct, ss, n)
    ensures NobodyBehind(ss[n])
  {
    if n == 0 {
    } else {
      RunKeepsNobodyBehind(pct, ss, n - 1);
      RunKeepsOk(pct, ss, n - 1);
      var step := StepAt(pct, ss, n);
      assert !OvertakesNext(pct, ss[n - 1], ss[n]);
      StepKeepsNobodyBehind(pct, ss[n - 1], step, ss[n]);
    }
  }

  lemma {:induction false} OvertakingLeavesBehind(pct: Percentile, s: State, step: Step, s': State)
    requires NextBy(pct, s, step, s') && Overtakes(s, step)
    ensures !NobodyBehind(s')
  {
    var p :| p in s.passes && p != step.id && s.passes[p].end < s.passes[step.id].end;
    assert p in s'.passes;
  }

  /**
   In a run no pass under way would ever move the watermark back exactly when no pass stores its watermark while one
   whose window ends earlier is under way.
   */
  lemma NobodyBehindExactlyWhen(pct: Percentile, ss: seq<State>)
    requires IsRun(pct, ss)
    ensures (forall n :: 0 <= n < |ss| ==> NobodyBehind(ss[n])) <==> InOrder(pct, ss, |ss| - 1)
  {
    if InOrder(pct, ss, |ss| - 1) {
      forall n | 0 <= n < |ss| ensures NobodyBehind(ss[n]) {
        RunKeepsNobodyBehind(pct, ss, n);
      }
    }
    if forall n :: 0 <= n < |ss| ==> NobodyBehind(ss[n]) {
      forall i | 0 < i <= |ss| - 1 ensures !OvertakesNext(pct, ss[i - 1], ss[i]) {
        if OvertakesNext(pct, ss[i - 1], ss[i]) {
          var step :| NextBy(pct, ss[i - 1], step, ss[i]) && Overtakes(ss[i - 1], step);
          OvertakingLeavesBehind(pct, ss[i - 1], step, ss[i]);
        }
      }
    }
  }

  /**
   As long as passes store in that order, a stored watermark is there for good and never moves back, whatever crashes.
   */
  lemma {:induction false} WatermarkNeverGoesBack(pct: Percentile, ss: seq<State>, i: nat, n: nat)
    requires IsRun(pct, ss) && i <= n < |ss| && InOrder(pct, ss, n) && ss[i].db.watermark.Some?
    ensures ss[n].db.watermark.Some? && ss[i].db.watermark.value <= ss[n].db.watermark.value
            && ss[n].origin == ss[i].origin
    decreases n
  {
    if i < n {
      WatermarkNeverGoesBack(pct, ss, i, n - 1);
      RunKeepsNobodyBehind(pct, ss, n - 1);
      var step := StepAt(pct, ss, n);
    }
  }

  // ---- the hours when passes overlap ----

  /**
   Every hour from the first stored pass's window up to the watermark has been aggregated, and so will it be up to any
   window under way once that is stored.
   */
  predicate Covered(s: State) {
    s.db.watermark.Some? ==>
      && HoursOf(s.origin, s.db.watermark.value) <= s.asOf.Keys
      && forall id :: id in s.passes ==> HoursOf(s.origin, s.passes[id].start) <= s.asOf.Keys
  }

  /** The first watermark is stored while a pass is under way whose window leaves unaggregated hours before it. */
  predicate Skips(s: State, step: Step) {
    && step.Advance? && step.id in s.passes && s.db.watermark.None?
    && exists p :: p in s.passes && p != step.id
        && !(HoursOf(s.passes[step.id].start, s.passes[p].start) <= s.asOf.Keys)
  }

  ghost predicate SkipsNext(pct: Percentile, s: State, s': State) {
    exists step :: NextBy(pct, s, step, s') && Skips(s, step)
  }

  ghost predicate Joined(pct: Percentile, ss: seq<State>, n: nat)
    requires n < |ss|
  {
    forall i :: 0 < i <= n ==> !SkipsNext(pct, ss[i - 1], ss[i])
  }

  lemma {:induction false} AdvanceKeepsCovered(pct: Percentile, s: State, id: PassId, s': State)
    requires StateOk(pct, s) && Covered(s) && NextBy(pct, s, Advance(id), s') && !Skips(s, Advance(id))
    ensures Covered(s')
  {
    var p := s.passes[id];
    assert PassOk(s, p);
    forall h | h in HoursOf(s'.origin, p.end) ensures h in s.asOf {
      if h < p.start {
        assert h in HoursOf(s.origin, p.start);
      } else {
        assert h in HoursOf(p.start, p.end);
      }
    }
  }

  lemma {:induction false} BeginKeepsCovered(pct: Percentile, s: State, id: PassId, s': State)
    requires StateOk(pct, s) && Covered(s) && NextBy(pct, s, Begin(id), s')
    ensures Covered(s')
  {
    WindowShape(s.clock, s.db.watermark);
    if s.db.watermark.Some? {
      forall h | h in HoursOf(s.origin, s'.passes[id].start) ensures h in s.asOf {
        assert h in HoursOf(s.origin, s.db.watermark.value);
      }
    }
  }

  lemma {:induction false} StepKeepsCovered(pct: Percentile, s: State, step: Step, s': State)
    requires StateOk(pct, s) && Covered(s) && NextBy(pct, s, step, s') && !Skips(s, step)
    ensures Covered(s')
  {
    match step
    case Begin(id) => BeginKeepsCovered(pct, s, id, s');
    case Advance(id) => AdvanceKeepsCovered(pct, s, id, s');
    case _ =>
  }

  lemma {:induction false} RunKeepsCovered(pct: Percentile, ss: seq<State>, n: nat)
    requires IsRun(pct, ss) && n < |ss| && Joined(pct, ss, n)
    ensures Covered(ss[n])
  {
    if n == 0 {
    } else {
      RunKeepsCovered(pct, ss, n - 1);
      RunKeepsOk(pct, ss, n - 1);
      var step := StepAt(pct, ss, n);
      assert !SkipsNext(pct, ss[n - 1], ss[n]);
      StepKeepsCovered(pct, ss[n - 1], step, ss[n]);
    }
  }

  lemma {:induction false} SkippingUncovers(pct: Percentile, s: State, step: Step, s': State)
    requires NextBy(pct, s, step, s') && Skips(s, step)
    ensures !Covered(s')
  {
    var p :| p in s.passes && p != step.id && !(HoursOf(s.passes[step.id].start, s.passes[p].start) <= s.asOf.Keys);
    assert p in s'.passes && s'.passes[p] == s.passes[p];
  }

  /**
   In a run no hour up to the watermark is ever left out, now or by a pass under way, exactly when the first watermark
   is not stored while a pass is under way whose window leaves unaggregated hours before it.
   */
  lemma CoveredExactlyWhen(pct: Percentile, ss: seq<State>)
    requires IsRun(pct, ss)
    ensures (forall n :: 0 <= n < |ss| ==> Covered(ss[n])) <==> Joined(pct, ss, |ss| - 1)
  {
    if Joined(pct, ss, |ss| - 1) {
      forall n | 0 <= n < |ss| ensures Covered(ss[n]) {
        RunKeepsCovered(pct, ss, n);
      }
    }
    if forall n :: 0 <= n < |ss| ==> Covered(ss[n]) {
      forall i | 0 < i <= |ss| - 1 ensures !SkipsNext(pct, ss[i - 1], ss[i]) {
        if SkipsNext(pct, ss[i - 1], ss[i]) {
          var step :| NextBy(pct, ss[i - 1], step, ss[i]) && Skips(ss[i - 1], step);
          SkippingUncovers(pct, ss[i - 1], step, ss[i]);
        }
      }
    }
  }

  /**
   Then in every reachable state each hour from the first stored pass's window up to the watermark has been aggregated,
   and the table holds exactly the aggregates of each hour's raw rows as of the last statement over it.
   */
  lemma NoHourIsSkipped(pct: Percentile, ss: seq<State>, n: nat, h: int)
    requires IsRun(pct, ss) && n < |ss| && Joined(pct, ss, n) && ss[n].db.watermark.Some?
    requires Aligned(h) && ss[n].origin <= h < ss[n].db.watermark.value
    ensures h in ss[n].asOf && ss[n].asOf[h] <= ss[n].raw
    ensures forall k: Key :: k.hour == h ==>
              if k in Keys(ss[n].asOf[h])
                  then k in ss[n].db.rollups && ss[n].db.rollups[k] == Aggregate(pct, RowsAt(ss[n].asOf[h], k))
              else k !in ss[n].db.rollups
  {
    RunKeepsCovered(pct, ss, n);
    RunKeepsOk(pct, ss, n);
    assert h in HoursOf(ss[n].origin, ss[n].db.watermark.value);
  }

  lemma OnlyOne<V>(m: map<PassId, V>)
    requires |m| <= 1
    ensures forall i, j :: i in m && j in m ==> i == j
  {
    forall i, j | i in m && j in m ensures i == j {
      assert |m.Keys - {i}| == |m.Keys| - 1;
      assert j !in m.Keys - {i};
    }
  }

  /** A single worker, which runs one pass at a time, meets both conditions. */
  lemma OneAtATimeIsInOrder(pct: Percentile, ss: seq<State>, n: nat)
    requires IsRun(pct, ss) && n < |ss| && forall i :: 0 <= i <= n ==> |ss[i].passes| <= 1
    ensures InOrder(pct, ss, n) && Joined(pct, ss, n)
  {
    forall i | 0 < i <= n ensures !OvertakesNext(pct, ss[i - 1], ss[i]) && !SkipsNext(pct, ss[i - 1], ss[i]) {
      OnlyOne(ss[i - 1].passes);
    }
  }

  // ---- both conditions can fail ----

  /** A run with passes 1 and 2 under way, begun at the instants `a` and `b`. */
  lemma TwoBegun(pct: Percentile, raw: set<Raw>, a: int, b: int) returns (ss: seq<State>)
    requires a <= b
    ensures IsRun(pct, ss)
    ensures ss[|ss| - 1] ==
            State(b, raw, Db(map[], None),
                  map[1 := Running(None, Trunc(a) - TRAILING_HOURS * HOUR, Trunc(a) + HOUR, false),
                      2 := Running(None, Trunc(b) - TRAILING_HOURS * HOUR, Trunc(b) + HOUR, false)], 0, map[])
  {
    FirstWindow(a);
    FirstWindow(b);
    var s0 := State(a, raw, Db(map[], None), map[], 0, map[]);
    var s1 := Begun(s0, 1);
    var s2 := s1.(clock := b);
    var s3 := Begun(s2, 2);
    assert NextBy(pct, s0, Begin(1), s1) && NextBy(pct, s1, Tick(b), s2) && NextBy(pct, s2, Begin(2), s3);
    ss := [s0, s1, s2, s3];
  }

  lemma Extended(pct: Percentile, ss: seq<State>, step: Step, s: State)
    requires IsRun(pct, ss) && NextBy(pct, ss[|ss| - 1], step, s)
    ensures IsRun(pct, ss + [s])
  {
    var r := ss + [s];
    forall i | 0 <= i < |r| - 1 ensures Next(pct, r[i], r[i + 1]) {
      assert i < |ss| - 1 ==> Next(pct, ss[i], ss[i + 1]);
    }
  }

  /** A pass that writes and then stores its watermark. */
  lemma WriteAndAdvance(pct: Percentile, ss: seq<State>, id: PassId) returns (tt: seq<State>)
    requires IsRun(pct, ss) && id in ss[|ss| - 1].passes && !ss[|ss| - 1].passes[id].done
    ensures IsRun(pct, tt) && ss <= tt
    ensures var s, s', p := ss[|ss| - 1], tt[|tt| - 1], ss[|ss| - 1].passes[id];
            && s'.db.watermark == Some(p.end) && s'.passes == s.passes - {id}
            && s'.asOf.Keys == s.asOf.Keys + HoursOf(p.start, p.end)
            && s'.origin == if s.db.watermark.None? then p.start else s.origin
  {
    var s := ss[|ss| - 1];
    var w := Written(pct, s, id);
    Extended(pct, ss, Write(id), w);
    Extended(pct, ss + [w], Advance(id), Advanced(w, id));
    tt := ss + [w] + [Advanced(w, id)];
    assert w.passes - {id} == s.passes - {id};
  }

  /** When the earlier of two overlapping passes stores last, the watermark moves back. */
  lemma SlowPassMovesBack(pct: Percentile, raw: set<Raw>, a: int, b: int) returns (ss: seq<State>, n: nat)
    requires a <= b && Trunc(a) < Trunc(b)
    ensures IsRun(pct, ss) && n < |ss|
    ensures ss[n].db.watermark == Some(Trunc(b) + HOUR) && ss[|ss| - 1].db.watermark == Some(Trunc(a) + HOUR)
  {
    var tt := TwoBegun(pct, raw, a, b);
    tt := WriteAndAdvance(pct, tt, 2);
    n := |tt| - 1;
    ss := WriteAndAdvance(pct, tt, 1);
    assert ss[n] == tt[n];
  }

  /** When two first passes overlap and the later one stores last, the hours between their windows are skipped. */
  lemma FirstPassesSkip(pct: Percentile, raw: set<Raw>, a: int, b: int) returns (ss: seq<State>)
    requires a <= b && Trunc(a) + HOUR < Trunc(b) - TRAILING_HOURS * HOUR
    ensures IsRun(pct, ss)
    ensures var s, h := ss[|ss| - 1], Trunc(a) + HOUR;
            s.db.watermark.Some? && Aligned(h) && s.origin <= h < s.db.watermark.value && h !in s.asOf
  {
    FirstWindow(a);
    ss := TwoBegun(pct, raw, a, b);
    ss := WriteAndAdvance(pct, ss, 1);
    ss := WriteAndAdvance(pct, ss, 2);
  }
}
