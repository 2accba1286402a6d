/**
 The tables an error event touches, the effect of each SQL statement of
 storeEvent and upsertIssue on them, and the law that ties every redundant
 counter back to the stored event rows.
 */
module IngestDb {
  import opened Wrappers

  const HOUR := 3600

  /** ts.Truncate(time.Hour), in seconds. */
  function HourOf(ts: int): int { ts - ts % HOUR }

  datatype EventKey = EventKey(id: string, ts: int)

  /** Issue rows are unique per (project, fingerprint); the row's random id stands for that pair. */
  datatype IssueKey = IssueKey(project: string, fingerprint: string)

  /** A parsed and normalised error event; user is "" when no user identity was sent. */
  datatype Event = Event(key: EventKey, issue: IssueKey, user: string, level: string, title: string, culprit: string)

  datatype EventRow = EventRow(event: Event, issueId: Option<IssueKey>)

  datatype Status = Unresolved | Resolved | Ignored

  datatype Issue = Issue(status: Status, substatus: string, firstSeen: int, lastSeen: int,
                         count: nat, userCount: nat, level: string, title: string, culprit: string)

  type UserRow = (IssueKey, string)
  type RollupKey = (IssueKey, int)

  datatype Db = Db(events: map<EventKey, EventRow>, issues: map<IssueKey, Issue>,
                   userHashes: set<UserRow>, rollups: map<RollupKey, nat>)

  const EMPTY := Db(map[], map[], {}, map[])

  /** The rows of `db` with the row versions of `ov` on top. */
  function Merge(db: Db, ov: Db): Db {
    Db(db.events + ov.events, db.issues + ov.issues, db.userHashes + ov.userHashes, db.rollups + ov.rollups)
  }

  // ---- one function per statement; each reads `db` and writes into `ov` ----

  function Max(a: int, b: int): int { if a < b then b else a }

  /** The row the INSERT … ON CONFLICT DO UPDATE of upsertIssue leaves behind. */
  function Upserted(prev: Option<Issue>, e: Event): Issue {
    match prev
    case None => Issue(Unresolved, "", e.key.ts, e.key.ts, 1, 0, e.level, e.title, e.culprit)
    case Some(i) =>
      i.(count := i.count + 1, lastSeen := Max(i.lastSeen, e.key.ts),
         level := e.level, title := e.title, culprit := e.culprit,
         status := if i.status == Resolved then Unresolved else i.status,
         substatus := if i.status == Resolved then "regressed" else i.substatus)
  }

  function Lookup<K, V>(m: map<K, V>, k: K): Option<V> { if k in m then Some(m[k]) else None }

  function InsertEvent(ov: Db, e: Event): Db {
    ov.(events := ov.events[e.key := EventRow(e, None)])
  }

  function UpsertIssue(db: Db, ov: Db, e: Event): Db {
    ov.(issues := ov.issues[e.issue := Upserted(Lookup(Merge(db, ov).issues, e.issue), e)])
  }

  /** The event's user has no row at its issue yet. */
  predicate AddsUser(v: Db, e: Event) { e.user != "" && (e.issue, e.user) !in v.userHashes }

  predicate NewUser(db: Db, ov: Db, e: Event) { AddsUser(Merge(db, ov), e) }

  function InsertUser(db: Db, ov: Db, e: Event): Db {
    if NewUser(db, ov, e) then ov.(userHashes := ov.userHashes + {(e.issue, e.user)}) else ov
  }

  function BumpUsers(db: Db, ov: Db, e: Event, isNew: bool): Db {
    if isNew && e.issue in Merge(db, ov).issues then
      var i := Merge(db, ov).issues[e.issue];
      ov.(issues := ov.issues[e.issue := i.(userCount := i.userCount + 1)])
    else ov
  }

  function LinkEvent(db: Db, ov: Db, e: Event): Db {
    if e.key in Merge(db, ov).events then
      ov.(events := ov.events[e.key := Merge(db, ov).events[e.key].(issueId := Some(e.issue))])
    else ov
  }

  function BumpRollup(db: Db, ov: Db, e: Event): Db {
    var k := (e.issue, HourOf(e.key.ts));
    var row := Lookup(Merge(db, ov).rollups, k);
    ov.(rollups := ov.rollups[k := if row.Some? then row.value + 1 else 1])
  }

  /** How many statements a non-duplicate event takes; the second is the status pre-read. */
  const STATEMENTS := 7

  /** Statement number `n` of an event; `isNew` is what the user-row insert reported. */
  function Statement(db: Db, ov: Db, e: Event, n: nat, isNew: bool): Db {
    match n
    case 1 => InsertEvent(ov, e)
    case 3 => UpsertIssue(db, ov, e)
    case 4 => InsertUser(db, ov, e)
    case 5 => BumpUsers(db, ov, e, isNew)
    case 6 => LinkEvent(db, ov, e)
    case 7 => BumpRollup(db, ov, e)
    case _ => ov
  }

  /** The overlay after the first `pc` statements of a non-duplicate event. */
  function Overlay(db: Db, ov: Db, e: Event, pc: nat): Db {
    if pc == 0 then ov else Statement(db, Overlay(db, ov, e, pc - 1), e, pc, NewUser(db, ov, e))
  }

  /** One whole event on top of an overlay: duplicates of a visible key change nothing. */
  function EventOverlay(db: Db, ov: Db, e: Event): Db {
    if e.key in Merge(db, ov).events then ov else Overlay(db, ov, e, STATEMENTS)
  }

  /** The overlay of a transaction that has processed `es` from scratch. */
  function Run(db: Db, es: seq<Event>): Db {
    if es == [] then EMPTY else EventOverlay(db, Run(db, es[..|es| - 1]), es[|es| - 1])
  }

  // ---- the serial meaning ----

  /** storeEvent run alone. */
  function ApplyEvent(db: Db, e: Event): Db {
    if e.key in db.events then db else
    var i := Upserted(Lookup(db.issues, e.issue), e);
    var newUser := AddsUser(db, e);
    var k := (e.issue, HourOf(e.key.ts));
    Db(db.events[e.key := EventRow(e, Some(e.issue))],
       db.issues[e.issue := if newUser then i.(userCount := i.userCount + 1) else i],
       if newUser then db.userHashes + {(e.issue, e.user)} else db.userHashes,
       db.rollups[k := if k in db.rollups then db.rollups[k] + 1 else 1])
  }

  function Deliver(db: Db, es: seq<Event>): Db {
    if es == [] then db else ApplyEvent(Deliver(db, es[..|es| - 1]), es[|es| - 1])
  }

  /** A triage action: UPDATE issues SET status = …, substatus = ''. */
  function SetStatus(db: Db, k: IssueKey, st: Status): Db {
    if k in db.issues then db.(issues := db.issues[k := db.issues[k].(status := st, substatus := "")]) else db
  }

  lemma MergePuts<K, V>(m: map<K, V>, o: map<K, V>, k: K, v: V)
    ensures m + o[k := v] == (m + o)[k := v]
  {
  }

  lemma InsertedEvent(db: Db, ov: Db, e: Event)
    ensures Merge(db, InsertEvent(ov, e)) == Merge(db, ov).(events := Merge(db, ov).events[e.key := EventRow(e, None)])
  {
    MergePuts(db.events, ov.events, e.key, EventRow(e, None));
  }

  lemma UpsertedIssue(db: Db, ov: Db, e: Event)
    ensures var v := Merge(db, ov);
            Merge(db, UpsertIssue(db, ov, e)) ==
                v.(issues := v.issues[e.issue := Upserted(Lookup(v.issues, e.issue), e)])
  {
    MergePuts(db.issues, ov.issues, e.issue, Upserted(Lookup(Merge(db, ov).issues, e.issue), e));
  }

  lemma InsertedUser(db: Db, ov: Db, e: Event)
    ensures var v := Merge(db, ov);
            Merge(db, InsertUser(db, ov, e)) ==
                v.(userHashes := if NewUser(db, ov, e) then v.userHashes + {(e.issue, e.user)} else v.userHashes)
  {
    var v := Merge(db, ov);
    if NewUser(db, ov, e) {
      assert db.userHashes + (ov.userHashes + {(e.issue, e.user)}) == v.userHashes + {(e.issue, e.user)};
    }
  }

  lemma BumpedUsers(db: Db, ov: Db, e: Event, isNew: bool)
    requires e.issue in Merge(db, ov).issues
    ensures var v := Merge(db, ov);
            var i := v.issues[e.issue];
            Merge(db, BumpUsers(db, ov, e, isNew)) ==
                v.(issues := v.issues[e.issue := if isNew then i.(userCount := i.userCount + 1) else i])
  {
    var v := Merge(db, ov);
    var i := v.issues[e.issue];
    if isNew {
      MergePuts(db.issues, ov.issues, e.issue, i.(userCount := i.userCount + 1));
    } else {
      assert v.issues[e.issue := i] == v.issues;
    }
  }

  lemma OverlayStep(db: Db, ov: Db, e: Event, pc: nat, before: Db)
    requires before == Overlay(db, ov, e, pc)
    ensures Overlay(db, ov, e, pc + 1) == Statement(db, before, e, pc + 1, NewUser(db, ov, e))
  {
  }

  lemma Unrolled(db: Db, ov: Db, e: Event)
    ensures var o4 := InsertUser(db, UpsertIssue(db, InsertEvent(ov, e), e), e);
            Overlay(db, ov, e, STATEMENTS) ==
                BumpRollup(db, LinkEvent(db, BumpUsers(db, o4, e, NewUser(db, ov, e)), e), e)
  {
    var isNew := NewUser(db, ov, e);
    var o1 := InsertEvent(ov, e);
    var o3 := UpsertIssue(db, o1, e);
    var o4 := InsertUser(db, o3, e);
    var o5 := BumpUsers(db, o4, e, isNew);
    var o6 := LinkEvent(db, o5, e);
    OverlayStep(db, ov, e, 0, ov);
    OverlayStep(db, ov, e, 1, o1);
    OverlayStep(db, ov, e, 2, o1);
    OverlayStep(db, ov, e, 3, o3);
    OverlayStep(db, ov, e, 4, o4);
    OverlayStep(db, ov, e, 5, o5);
    OverlayStep(db, ov, e, 6, o6);
  }

  /** Everything but the link and the rollup: event, issue and user rows. */
  function WithRows(v: Db, e: Event): Db {
    var isNew := AddsUser(v, e);
    var row := Upserted(Lookup(v.issues, e.issue), e);
    Db(v.events[e.key := EventRow(e, None)],
       v.issues[e.issue := row][e.issue := if isNew then row.(userCount := row.userCount + 1) else row],
       if isNew then v.userHashes + {(e.issue, e.user)} else v.userHashes, v.rollups)
  }

  lemma FirstFive(db: Db, ov: Db, e: Event)
    ensures var o5 := BumpUsers(db, InsertUser(db, UpsertIssue(db, InsertEvent(ov, e), e), e), e, NewUser(db, ov, e));
            Merge(db, o5) == WithRows(Merge(db, ov), e)
  {
    var o1 := InsertEvent(ov, e);
    var o3 := UpsertIssue(db, o1, e);
    var o4 := InsertUser(db, o3, e);
    InsertedEvent(db, ov, e);
    UpsertedIssue(db, o1, e);
    InsertedUser(db, o3, e);
    BumpedUsers(db, o4, e, NewUser(db, ov, e));
  }

  /** The link and the rollup on top. */
  function WithCounts(v: Db, e: Event): Db
    requires e.key in v.events
  {
    var k := (e.issue, HourOf(e.key.ts));
    v.(events := v.events[e.key := v.events[e.key].(issueId := Some(e.issue))],
       rollups := v.rollups[k := if k in v.rollups then v.rollups[k] + 1 else 1])
  }

  lemma TwoHalves(v: Db, e: Event)
    requires e.key !in v.events
    ensures WithCounts(WithRows(v, e), e) == ApplyEvent(v, e)
  {
    PutTwice(v, e, AddsUser(v, e));
  }

  /** Running the seven statements over an overlay is the one-step serial effect on the merged tables. */
  lemma EventOverlayIsApply(db: Db, ov: Db, e: Event)
    ensures Merge(db, EventOverlay(db, ov, e)) == ApplyEvent(Merge(db, ov), e)
  {
    if e.key !in Merge(db, ov).events {
      var o5 := BumpUsers(db, InsertUser(db, UpsertIssue(db, InsertEvent(ov, e), e), e), e, NewUser(db, ov, e));
      Unrolled(db, ov, e);
      FirstFive(db, ov, e);
      LinkedAndCounted(db, o5, e);
      TwoHalves(Merge(db, ov), e);
    }
  }

  /** The rows the statements write twice keep the second version only. */
  lemma PutTwice(v: Db, e: Event, isNew: bool)
    ensures var row := Upserted(Lookup(v.issues, e.issue), e);
            var last := if isNew then row.(userCount := row.userCount + 1) else row;
            v.issues[e.issue := row][e.issue := last] == v.issues[e.issue := last]
    ensures v.events[e.key := EventRow(e, None)][e.key := EventRow(e, Some(e.issue))] ==
            v.events[e.key := EventRow(e, Some(e.issue))]
  {
  }

  lemma Linked(db: Db, o5: Db, e: Event)
    requires e.key in Merge(db, o5).events
    ensures var v5 := Merge(db, o5);
            Merge(db, LinkEvent(db, o5, e)) ==
                v5.(events := v5.events[e.key := v5.events[e.key].(issueId := Some(e.issue))])
  {
    MergePuts(db.events, o5.events, e.key, Merge(db, o5).events[e.key].(issueId := Some(e.issue)));
  }

  lemma Counted(db: Db, o6: Db, e: Event)
    ensures var v6, k := Merge(db, o6), (e.issue, HourOf(e.key.ts));
            Merge(db, BumpRollup(db, o6, e)) ==
                v6.(rollups := v6.rollups[k := if k in v6.rollups then v6.rollups[k] + 1 else 1])
  {
    var v6, k := Merge(db, o6), (e.issue, HourOf(e.key.ts));
    MergePuts(db.rollups, o6.rollups, k, if k in v6.rollups then v6.rollups[k] + 1 else 1);
  }

  lemma LinkedAndCounted(db: Db, o5: Db, e: Event)
    requires e.key in Merge(db, o5).events
    ensures Merge(db, BumpRollup(db, LinkEvent(db, o5, e), e)) == WithCounts(Merge(db, o5), e)
  {
    Linked(db, o5, e);
    Counted(db, LinkEvent(db, o5, e), e);
  }

  /** Committing a whole transaction's overlay is delivering its events one after the other. */
  lemma {:induction false} RunIsDeliver(db: Db, es: seq<Event>)
    ensures Merge(db, Run(db, es)) == Deliver(db, es)
  {
    if es == [] {
      assert Merge(db, EMPTY) == db;
    } else {
      RunIsDeliver(db, es[..|es| - 1]);
      EventOverlayIsApply(db, Run(db, es[..|es| - 1]), es[|es| - 1]);
    }
  }

  lemma {:induction false} DeliverConcat(db: Db, a: seq<Event>, b: seq<Event>)
    ensures Deliver(db, a + b) == Deliver(Deliver(db, a), b)
  {
    if b == [] {
      assert a + b == a;
    } else {
      assert (a + b)[..|a + b| - 1] == a + b[..|b| - 1];
      DeliverConcat(db, a, b[..|b| - 1]);
    }
  }

  // ---- every counter is a function of the event rows ----

  function EventsOf(db: Db, k: IssueKey): set<EventKey> {
    set x | x in db.events && db.events[x].event.issue == k
  }

  function EventsIn(db: Db, k: IssueKey, h: int): set<EventKey> {
    set x | x in db.events && db.events[x].event.issue == k && HourOf(x.ts) == h
  }

  function UsersOf(db: Db, k: IssueKey): set<UserRow> {
    set p | p in db.userHashes && p.0 == k
  }

  function IssuesSeen(db: Db): set<IssueKey> {
    set x | x in db.events :: db.events[x].event.issue
  }

  function UsersSeen(db: Db): set<UserRow> {
    set x | x in db.events && db.events[x].event.user != "" :: (db.events[x].event.issue, db.events[x].event.user)
  }

  function HoursSeen(db: Db): set<RollupKey> {
    set x | x in db.events :: (db.events[x].event.issue, HourOf(x.ts))
  }

  /** Every stored event row carries its own key and points at its issue. */
  ghost predicate EventRowsLinked(db: Db) {
    forall x <- db.events :: db.events[x].event.key == x && db.events[x].issueId == Some(db.events[x].event.issue)
  }

  /** Issue, user and rollup rows exist for exactly the issues, users and hours of the stored events. */
  ghost predicate RowsSeen(db: Db) {
    db.issues.Keys == IssuesSeen(db) && db.userHashes == UsersSeen(db) && db.rollups.Keys == HoursSeen(db)
  }

  /** An issue's counters count its event rows and its user rows. */
  ghost predicate IssuesCounted(db: Db) {
    forall k <- db.issues :: db.issues[k].count == |EventsOf(db, k)| && db.issues[k].userCount == |UsersOf(db, k)|
  }

  /** Each hourly rollup counts the events of its issue in its hour. */
  ghost predicate RollupsCounted(db: Db) {
    forall r <- db.rollups :: db.rollups[r] == |EventsIn(db, r.0, r.1)|
  }

  /** The issue's events from `lo` on and before `hi`, in seconds. */
  function EventsBetween(db: Db, k: IssueKey, lo: int, hi: int): set<EventKey> {
    set x | x in db.events && db.events[x].event.issue == k && lo <= x.ts < hi
  }

  /** Rollup rows start on the hour and count the events of the 3600 seconds from there. */
  ghost predicate HoursCounted(db: Db) {
    forall r <- db.rollups :: r.1 % 3600 == 0 && db.rollups[r] == |EventsBetween(db, r.0, r.1, r.1 + 3600)|
  }

  /** last_seen is the newest event timestamp, first_seen the timestamp of some event. */
  ghost predicate Dated(db: Db, k: IssueKey, lastSeen: int, firstSeen: int) {
    && (forall x <- EventsOf(db, k) :: x.ts <= lastSeen)
    && (exists x <- EventsOf(db, k) :: x.ts == lastSeen)
    && (exists x <- EventsOf(db, k) :: x.ts == firstSeen)
  }

  ghost predicate IssuesDated(db: Db) {
    forall k <- db.issues :: Dated(db, k, db.issues[k].lastSeen, db.issues[k].firstSeen)
  }

  ghost predicate Derived(db: Db) {
    EventRowsLinked(db) && RowsSeen(db) && IssuesCounted(db) && RollupsCounted(db) && HoursCounted(db)
    && IssuesDated(db)
  }
}
