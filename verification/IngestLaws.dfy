/**
 What every serial run of deliveries and triage actions keeps: the redundant
 counters agree with the event rows, and the order of deliveries is forgotten.
 */
module IngestLaws {
  import opened Wrappers
  import opened IngestDb

  // ---- the law holds initially and every step keeps it ----

  lemma EmptyDerived()
    ensures Derived(EMPTY)
  {
    assert IssuesSeen(EMPTY) == {} && UsersSeen(EMPTY) == {} && HoursSeen(EMPTY) == {};
  }

  lemma AddsOne<T>(before: set<T>, after: set<T>, x: T)
    requires x !in before && after == before + {x}
    ensures |after| == |before| + 1
  {
  }

  lemma EventsAfter(db: Db, e: Event, k: IssueKey)
    requires e.key !in db.events
    ensures EventsOf(ApplyEvent(db, e), k) == EventsOf(db, k) + (if k == e.issue then {e.key} else {})
  {
  }

  lemma HourlyEventsAfter(db: Db, e: Event, k: IssueKey, h: int)
    requires e.key !in db.events
    ensures EventsIn(ApplyEvent(db, e), k, h) ==
            EventsIn(db, k, h) + (if k == e.issue && h == HourOf(e.key.ts) then {e.key} else {})
  {
  }

  lemma UsersAfter(db: Db, e: Event, k: IssueKey)
    requires e.key !in db.events
    ensures UsersOf(ApplyEvent(db, e), k) ==
            UsersOf(db, k) + (if AddsUser(db, e) && k == e.issue then {(e.issue, e.user)} else {})
  {
  }

  lemma IssuesSeenAfter(db: Db, e: Event)
    requires e.key !in db.events
    ensures IssuesSeen(ApplyEvent(db, e)) == IssuesSeen(db) + {e.issue}
  {
    var d := ApplyEvent(db, e);
    assert d.events[e.key].event == e;
    assert forall x <- db.events :: x in d.events && d.events[x] == db.events[x];
  }

  lemma UsersSeenAfter(db: Db, e: Event)
    requires e.key !in db.events
    ensures UsersSeen(ApplyEvent(db, e)) == UsersSeen(db) + (if e.user == "" then {} else {(e.issue, e.user)})
  {
    var d := ApplyEvent(db, e);
    assert d.events[e.key].event == e;
    assert forall x <- db.events :: x in d.events && d.events[x] == db.events[x];
  }

  lemma HoursSeenAfter(db: Db, e: Event)
    requires e.key !in db.events
    ensures HoursSeen(ApplyEvent(db, e)) == HoursSeen(db) + {(e.issue, HourOf(e.key.ts))}
  {
    var d := ApplyEvent(db, e);
    assert d.events[e.key].event == e;
    assert forall x <- db.events :: x in d.events && d.events[x] == db.events[x];
  }

  /** The rows after one accepted event. */
  lemma RowsAfter(db: Db, e: Event)
    requires e.key !in db.events
    ensures var d := ApplyEvent(db, e);
            && d.issues.Keys == db.issues.Keys + {e.issue}
            && d.userHashes == db.userHashes + (if e.user == "" then {} else {(e.issue, e.user)})
            && d.rollups.Keys == db.rollups.Keys + {(e.issue, HourOf(e.key.ts))}
  {
  }

  lemma KeepsRowsSeen(db: Db, e: Event)
    requires RowsSeen(db) && e.key !in db.events
    ensures RowsSeen(ApplyEvent(db, e))
  {
    var d := ApplyEvent(db, e);
    RowsAfter(db, e);
    assert d.issues.Keys == IssuesSeen(d) by { IssuesSeenAfter(db, e); }
    assert d.userHashes == UsersSeen(d) by { UsersSeenAfter(db, e); }
    assert d.rollups.Keys == HoursSeen(d) by { HoursSeenAfter(db, e); }
  }

  lemma UnseenIssue(db: Db, k: IssueKey)
    requires RowsSeen(db) && k !in db.issues
    ensures EventsOf(db, k) == {} && UsersOf(db, k) == {}
  {
    assert forall x <- db.events :: db.events[x].event.issue in IssuesSeen(db);
    assert forall p <- UsersSeen(db) :: p.0 in IssuesSeen(db);
  }

  lemma OtherIssueStaysCounted(db: Db, e: Event, k: IssueKey)
    requires IssuesCounted(db) && e.key !in db.events && k in db.issues && k != e.issue
    ensures var d := ApplyEvent(db, e);
            d.issues[k].count == |EventsOf(d, k)| && d.issues[k].userCount == |UsersOf(d, k)|
  {
    EventsAfter(db, e, k);
    UsersAfter(db, e, k);
  }

  /** The counters of the event's own issue row go up by one, or start there. */
  lemma OwnRowAfter(db: Db, e: Event)
    requires e.key !in db.events
    ensures var row, before := ApplyEvent(db, e).issues[e.issue], Lookup(db.issues, e.issue);
            && row.count == (if before.Some? then before.value.count else 0) + 1
            && row.userCount == (if before.Some? then before.value.userCount else 0)
                + (if AddsUser(db, e) then 1 else 0)
  {
  }

  lemma OwnIssueIsCounted(db: Db, e: Event)
    requires RowsSeen(db) && IssuesCounted(db) && e.key !in db.events
    ensures var d, k := ApplyEvent(db, e), e.issue;
            d.issues[k].count == |EventsOf(d, k)| && d.issues[k].userCount == |UsersOf(d, k)|
  {
    var d, k := ApplyEvent(db, e), e.issue;
    var events, users := EventsOf(db, k), UsersOf(db, k);
    assert (if k in db.issues then db.issues[k].count else 0) == |events|
        && (if k in db.issues then db.issues[k].userCount else 0) == |users| by {
      if k !in db.issues {
        UnseenIssue(db, k);
      }
    }
    assert |EventsOf(d, k)| == |events| + 1 by {
      EventsAfter(db, e, k);
      AddsOne(events, EventsOf(d, k), e.key);
    }
    assert |UsersOf(d, k)| == |users| + (if AddsUser(db, e) then 1 else 0) by {
      UsersAfter(db, e, k);
      if AddsUser(db, e) {
        AddsOne(users, UsersOf(d, k), (k, e.user));
      }
    }
    OwnRowAfter(db, e);
  }

  lemma KeepsIssuesCounted(db: Db, e: Event)
    requires RowsSeen(db) && IssuesCounted(db) && e.key !in db.events
    ensures IssuesCounted(ApplyEvent(db, e))
  {
    var d := ApplyEvent(db, e);
    forall k | k in d.issues
      ensures d.issues[k].count == |EventsOf(d, k)| && d.issues[k].userCount == |UsersOf(d, k)|
    {
      if k == e.issue {
        OwnIssueIsCounted(db, e);
      } else {
        OtherIssueStaysCounted(db, e, k);
      }
    }
  }

  lemma KeepsRollupsCounted(db: Db, e: Event)
    requires RowsSeen(db) && RollupsCounted(db) && e.key !in db.events
    ensures RollupsCounted(ApplyEvent(db, e))
  {
    var d := ApplyEvent(db, e);
    forall r | r in d.rollups ensures d.rollups[r] == |EventsIn(d, r.0, r.1)| {
      HourlyEventsAfter(db, e, r.0, r.1);
      if r == (e.issue, HourOf(e.key.ts)) {
        AddsOne(EventsIn(db, r.0, r.1), EventsIn(d, r.0, r.1), e.key);
        if r !in db.rollups {
          assert forall x <- db.events :: (db.events[x].event.issue, HourOf(x.ts)) in HoursSeen(db);
          assert EventsIn(db, r.0, r.1) == {};
        }
      }
    }
  }

  lemma KeepsIssuesDated(db: Db, e: Event)
    requires RowsSeen(db) && IssuesDated(db) && e.key !in db.events
    ensures IssuesDated(ApplyEvent(db, e))
  {
    var d := ApplyEvent(db, e);
    forall k | k in d.issues ensures Dated(d, k, d.issues[k].lastSeen, d.issues[k].firstSeen) {
      EventsAfter(db, e, k);
      if k == e.issue {
        assert e.key in EventsOf(d, k);
        if k in db.issues {
          assert Dated(db, k, db.issues[k].lastSeen, db.issues[k].firstSeen);
        } else {
          UnseenIssue(db, k);
        }
      } else {
        assert Dated(db, k, db.issues[k].lastSeen, db.issues[k].firstSeen);
      }
    }
  }

  /** One delivered event, duplicate or not, keeps every counter in step with the event rows. */
  lemma ApplyKeepsDerived(db: Db, e: Event)
    requires Derived(db)
    ensures Derived(ApplyEvent(db, e))
  {
    if e.key !in db.events {
      KeepsRowsSeen(db, e);
      KeepsIssuesCounted(db, e);
      KeepsRollupsCounted(db, e);
      HoursAreSpans(ApplyEvent(db, e));
      KeepsIssuesDated(db, e);
    }
  }

  lemma {:induction false} DeliverKeepsDerived(db: Db, es: seq<Event>)
    requires Derived(db)
    ensures Derived(Deliver(db, es))
  {
    if es == [] {
    } else {
      DeliverKeepsDerived(db, es[..|es| - 1]);
      ApplyKeepsDerived(Deliver(db, es[..|es| - 1]), es[|es| - 1]);
    }
  }

  /** Tables with the same events, user rows and rollups count the same things. */
  lemma SameSets(a: Db, b: Db, k: IssueKey, h: int)
    requires a.events == b.events && a.userHashes == b.userHashes
    ensures EventsOf(a, k) == EventsOf(b, k) && UsersOf(a, k) == UsersOf(b, k) && EventsIn(a, k, h) == EventsIn(b, k, h)
    ensures IssuesSeen(a) == IssuesSeen(b) && UsersSeen(a) == UsersSeen(b) && HoursSeen(a) == HoursSeen(b)
  {
  }

  lemma HourSpan(ts: int, h: int)
    requires h % 3600 == 0
    ensures HourOf(ts) % 3600 == 0 && (HourOf(ts) == h <==> h <= ts < h + 3600)
  {
  }

  /** Counted by the hour of each event means counted by the span of each hour. */
  lemma HoursAreSpans(db: Db)
    requires RowsSeen(db) && RollupsCounted(db)
    ensures HoursCounted(db)
  {
    forall r | r in db.rollups ensures r.1 % 3600 == 0 && db.rollups[r] == |EventsBetween(db, r.0, r.1, r.1 + 3600)| {
      assert r in HoursSeen(db);
      var x :| x in db.events && r == (db.events[x].event.issue, HourOf(x.ts));
      HourSpan(x.ts, 0);
      forall y: EventKey ensures HourOf(y.ts) == r.1 <==> r.1 <= y.ts < r.1 + 3600 {
        HourSpan(y.ts, r.1);
      }
      assert EventsIn(db, r.0, r.1) == EventsBetween(db, r.0, r.1, r.1 + 3600);
    }
  }

  /** Every stored event is in the hour of some rollup row of its issue. */
  lemma EventsHaveTheirHour(db: Db, x: EventKey) returns (h: int)
    requires Derived(db) && x in db.events
    ensures (db.events[x].event.issue, h) in db.rollups && h % 3600 == 0 && h <= x.ts < h + 3600
  {
    h := HourOf(x.ts);
    HourSpan(x.ts, h);
    assert (db.events[x].event.issue, h) in HoursSeen(db);
  }

  lemma SetStatusKeepsIssues(db: Db, k: IssueKey, st: Status)
    requires IssuesCounted(db) && IssuesDated(db) && k in db.issues
    ensures IssuesCounted(SetStatus(db, k, st)) && IssuesDated(SetStatus(db, k, st))
  {
    var d := SetStatus(db, k, st);
    forall j | j in d.issues
      ensures d.issues[j].count == |EventsOf(d, j)| && d.issues[j].userCount == |UsersOf(d, j)|
      ensures Dated(d, j, d.issues[j].lastSeen, d.issues[j].firstSeen)
    {
      SameSets(db, d, j, 0);
      assert Dated(db, j, db.issues[j].lastSeen, db.issues[j].firstSeen);
    }
  }

  lemma SetStatusKeepsRows(db: Db, k: IssueKey, st: Status)
    requires RowsSeen(db) && RollupsCounted(db) && k in db.issues
    ensures RowsSeen(SetStatus(db, k, st)) && RollupsCounted(SetStatus(db, k, st))
  {
    var d := SetStatus(db, k, st);
    SameSets(db, d, k, 0);
    assert d.issues.Keys == db.issues.Keys;
    forall r | r in d.rollups ensures d.rollups[r] == |EventsIn(d, r.0, r.1)| {
      SameSets(db, d, r.0, r.1);
    }
  }

  lemma SetStatusKeepsDerived(db: Db, k: IssueKey, st: Status)
    requires Derived(db)
    ensures Derived(SetStatus(db, k, st))
  {
    if k in db.issues {
      SetStatusKeepsIssues(db, k, st);
      SetStatusKeepsRows(db, k, st);
      HoursAreSpans(SetStatus(db, k, st));
    }
  }

  // ---- the issue count is also the sum of the hourly rollups ----

  function RollupsOf(db: Db, k: IssueKey): set<RollupKey> {
    set r | r in db.rollups && r.0 == k
  }

  ghost function SumOver(rollups: map<RollupKey, nat>, rows: set<RollupKey>): nat
    requires rows <= rollups.Keys
  {
    if rows == {} then 0 else
    var r :| r in rows;
    rollups[r] + SumOver(rollups, rows - {r})
  }

  /** The issue's events in the hours of some of its rollup rows. */
  function EventsInRows(db: Db, k: IssueKey, rows: set<RollupKey>): set<EventKey> {
    set x | x in EventsOf(db, k) && (k, HourOf(x.ts)) in rows
  }

  lemma OneHourLess(db: Db, k: IssueKey, rows: set<RollupKey>, r: RollupKey)
    requires r in rows && r.0 == k
    ensures |EventsInRows(db, k, rows)| == |EventsInRows(db, k, rows - {r})| + |EventsIn(db, k, r.1)|
  {
    var all, rest, hour := EventsInRows(db, k, rows), EventsInRows(db, k, rows - {r}), EventsIn(db, k, r.1);
    assert all == rest + hour && rest !! hour;
  }

  /** The sum over some of an issue's rollup rows counts the issue's events in those hours. */
  lemma {:induction false} SumOverCounts(db: Db, k: IssueKey, rows: set<RollupKey>)
    requires RollupsCounted(db) && rows <= RollupsOf(db, k)
    ensures SumOver(db.rollups, rows) == |EventsInRows(db, k, rows)|
    decreases rows
  {
    if rows == {} {
      assert EventsInRows(db, k, rows) == {};
    } else {
      var r :| r in rows && SumOver(db.rollups, rows) == db.rollups[r] + SumOver(db.rollups, rows - {r});
      SumOverCounts(db, k, rows - {r});
      OneHourLess(db, k, rows, r);
    }
  }

  lemma EveryHourHasARow(db: Db, k: IssueKey)
    requires RowsSeen(db)
    ensures EventsInRows(db, k, RollupsOf(db, k)) == EventsOf(db, k)
  {
    forall x | x in EventsOf(db, k) ensures (k, HourOf(x.ts)) in RollupsOf(db, k) {
      assert (db.events[x].event.issue, HourOf(x.ts)) in HoursSeen(db);
    }
  }

  /** count == sum of the issue's hourly rollups == number of accepted events; user_count == number of user rows. */
  lemma CountsAgree(db: Db, k: IssueKey)
    requires RowsSeen(db) && IssuesCounted(db) && RollupsCounted(db) && k in db.issues
    ensures db.issues[k].count == SumOver(db.rollups, RollupsOf(db, k)) == |EventsOf(db, k)|
    ensures db.issues[k].userCount == |UsersOf(db, k)|
  {
    SumOverCounts(db, k, RollupsOf(db, k));
    EveryHourHasARow(db, k);
  }

  // ---- redelivery and order ----

  /** A redelivered event changes nothing at all, wherever it comes in the rest of the run. */
  lemma RedeliveryIsNoOp(db: Db, e: Event, es: seq<Event>)
    ensures ApplyEvent(Deliver(ApplyEvent(db, e), es), e) == Deliver(ApplyEvent(db, e), es)
  {
    DeliverKeepsKeys(ApplyEvent(db, e), es);
  }

  lemma {:induction false} DeliverKeepsKeys(db: Db, es: seq<Event>)
    ensures db.events.Keys <= Deliver(db, es).events.Keys
    ensures forall k <- db.events :: Deliver(db, es).events[k] == db.events[k]
  {
    if es == [] {
    } else {
      DeliverKeepsKeys(db, es[..|es| - 1]);
    }
  }

  /** Equal (id, timestamp) means equal payload. */
  ghost predicate Consistent(es: seq<Event>) {
    forall a, b :: a in es && b in es && a.key == b.key ==> a == b
  }

  /** The event table after delivering `es`, described without running it. */
  ghost predicate Absorbed(db: Db, es: seq<Event>, out: map<EventKey, EventRow>) {
    && (forall k :: k in out <==> k in db.events || exists e :: e in es && e.key == k)
    && (forall k <- db.events :: k in out && out[k] == db.events[k])
    && (forall e :: e in es && e.key !in db.events ==> e.key in out && out[e.key] == EventRow(e, Some(e.issue)))
  }

  lemma AbsorbsOneMore(db: Db, front: seq<Event>, e: Event, before: map<EventKey, EventRow>, after: map<EventKey,
      EventRow>)
    requires Consistent(front + [e]) && Absorbed(db, front, before)
    requires after == if e.key in before then before else before[e.key := EventRow(e, Some(e.issue))]
    ensures Absorbed(db, front + [e], after)
  {
    assert forall x :: x in front + [e] <==> x in front || x == e;
  }

  lemma {:induction false} DeliverAbsorbs(db: Db, es: seq<Event>)
    requires Consistent(es)
    ensures Absorbed(db, es, Deliver(db, es).events)
  {
    if es == [] {
    } else {
      var front, e := es[..|es| - 1], es[|es| - 1];
      assert es == front + [e];
      DeliverAbsorbs(db, front);
      AbsorbsOneMore(db, front, e, Deliver(db, front).events, Deliver(db, es).events);
    }
  }

  /** A status survives deliveries unless the issue was resolved and got a new event. */
  function StatusAfter(before: Option<Issue>, gotNew: bool): Status {
    if before.None? then Unresolved
    else if gotNew && before.value.status == Resolved then Unresolved
    else before.value.status
  }

  predicate GotNew(before: Db, after: Db, k: IssueKey) {
    exists x <- after.events :: x !in before.events && after.events[x].event.issue == k
  }

  /** Only deliveries that find the issue resolved mark it regressed. */
  function SubstatusAfter(before: Option<Issue>, gotNew: bool): string {
    if before.None? then ""
    else if gotNew && before.value.status == Resolved then "regressed"
    else before.value.substatus
  }

  lemma GotNewStep(db: Db, d: Db, e: Event, k: IssueKey)
    requires db.events.Keys <= d.events.Keys && e.key !in d.events
    ensures GotNew(db, ApplyEvent(d, e), k) <==> GotNew(db, d, k) || e.issue == k
  {
    var d' := ApplyEvent(d, e);
    assert d'.events[e.key].event == e;
    if GotNew(db, d, k) {
      var x :| x in d.events && x !in db.events && d.events[x].event.issue == k;
      assert x in d'.events && d'.events[x] == d.events[x];
    }
  }

  /** Status and substatus after a run of deliveries depend on where they stood and on whether a new event came. */
  lemma {:induction false} StatusesAfter(db: Db, es: seq<Event>, k: IssueKey)
    requires k in Deliver(db, es).issues
    ensures var row, before, gotNew := Deliver(db, es).issues[k], Lookup(db.issues, k), GotNew(db, Deliver(db, es), k);
            && row.status == StatusAfter(before, gotNew) && row.substatus == SubstatusAfter(before, gotNew)
            && (before.Some? ==> row.firstSeen == before.value.firstSeen)
  {
    if es == [] {
    } else {
      var front, e := es[..|es| - 1], es[|es| - 1];
      var d := Deliver(db, front);
      DeliverKeepsKeys(db, front);
      if k in d.issues {
        StatusesAfter(db, front, k);
      } else {
        IssuesNeverGo(db, front, k);
      }
      if e.key !in d.events {
        GotNewStep(db, d, e, k);
      }
    }
  }

  lemma {:induction false} IssuesNeverGo(db: Db, es: seq<Event>, k: IssueKey)
    ensures k in db.issues ==> k in Deliver(db, es).issues
  {
    if es == [] {
    } else {
      IssuesNeverGo(db, es[..|es| - 1], k);
    }
  }

  /** The event is no duplicate when it arrives: neither the table nor an earlier delivery has its key. */
  predicate Arrives(db: Db, es: seq<Event>, i: nat)
    requires i < |es|
  {
    es[i].key !in db.events && forall j :: 0 <= j < i ==> es[j].key != es[i].key
  }

  /** The first of `es` that belongs to the issue and arrives. */
  function FirstArrival(db: Db, es: seq<Event>, k: IssueKey): Option<Event> {
    if es == [] then None else
    var before := FirstArrival(db, es[..|es| - 1], k);
    if before.Some? then before
    else if es[|es| - 1].issue == k && Arrives(db, es, |es| - 1) then Some(es[|es| - 1]) else None
  }

  /** The last of `es` that belongs to the issue and arrives. */
  function LastArrival(db: Db, es: seq<Event>, k: IssueKey): Option<Event> {
    if es == [] then None
    else if es[|es| - 1].issue == k && Arrives(db, es, |es| - 1) then Some(es[|es| - 1])
    else LastArrival(db, es[..|es| - 1], k)
  }

  lemma {:induction false} KeysAfter(db: Db, es: seq<Event>, x: EventKey)
    ensures x in Deliver(db, es).events <==> x in db.events || exists j :: 0 <= j < |es| && es[j].key == x
  {
    if es == [] {
    } else {
      var front := es[..|es| - 1];
      KeysAfter(db, front, x);
      assert forall j :: 0 <= j < |front| ==> front[j] == es[j];
      assert es[|es| - 1].key == x ==> x in Deliver(db, es).events;
    }
  }

  lemma ArrivesExactlyWhen(db: Db, es: seq<Event>)
    requires es != []
    ensures Arrives(db, es, |es| - 1) <==> es[|es| - 1].key !in Deliver(db, es[..|es| - 1]).events
  {
    var front := es[..|es| - 1];
    KeysAfter(db, front, es[|es| - 1].key);
    assert forall j :: 0 <= j < |front| ==> front[j] == es[j];
  }

  /** An issue shows level, title and culprit of the event that arrived last, whatever its timestamp. */
  lemma {:induction false} LastArrivalIsShown(db: Db, es: seq<Event>, k: IssueKey)
    ensures var last := LastArrival(db, es, k);
            if last.Some? then
              k in Deliver(db, es).issues && var i := Deliver(db, es).issues[k];
              i.level == last.value.level && i.title == last.value.title && i.culprit == last.value.culprit
            else Lookup(Deliver(db, es).issues, k) == Lookup(db.issues, k)
  {
    if es == [] {
    } else {
      ArrivesExactlyWhen(db, es);
      LastArrivalIsShown(db, es[..|es| - 1], k);
    }
  }

  /** A new issue exists once one of its events arrived, and its first_seen is that event's timestamp. */
  lemma {:induction false} FirstSeenIsFirstArrival(db: Db, es: seq<Event>, k: IssueKey)
    requires k !in db.issues
    ensures k in Deliver(db, es).issues <==> FirstArrival(db, es, k).Some?
    ensures k in Deliver(db, es).issues ==> Deliver(db, es).issues[k].firstSeen == FirstArrival(db, es, k).value.key.ts
  {
    if es == [] {
    } else {
      ArrivesExactlyWhen(db, es);
      FirstSeenIsFirstArrival(db, es[..|es| - 1], k);
    }
  }

  /** The stored events that were not there before are the ones that arrived. */
  lemma {:induction false} ArrivedIsStored(db: Db, es: seq<Event>, i: nat)
    requires i < |es| && Arrives(db, es, i)
    ensures es[i].key in Deliver(db, es).events && Deliver(db, es).events[es[i].key].event == es[i]
  {
    var front := es[..|es| - 1];
    if i == |es| - 1 {
      ArrivesExactlyWhen(db, es);
    } else {
      assert front[i] == es[i] && forall j :: 0 <= j < i ==> front[j] == es[j];
      ArrivedIsStored(db, front, i);
    }
  }

  lemma {:induction false} StoredHasArrived(db: Db, es: seq<Event>, x: EventKey) returns (i: nat)
    requires x in Deliver(db, es).events && x !in db.events
    ensures i < |es| && Arrives(db, es, i) && es[i].key == x
  {
    var front := es[..|es| - 1];
    if x in Deliver(db, front).events {
      i := StoredHasArrived(db, front, x);
      assert front[i] == es[i] && forall j :: 0 <= j < i ==> front[j] == es[j];
    } else {
      i := |es| - 1;
      ArrivesExactlyWhen(db, es);
    }
  }

  /**
   No event of the issue is older than its first_seen exactly when none that arrived is older than the first that did.
   */
  lemma {:induction false} OldestIsShownExactlyWhen(db: Db, es: seq<Event>, k: IssueKey)
    requires RowsSeen(db) && k !in db.issues && k in Deliver(db, es).issues
    ensures FirstArrival(db, es, k).Some?
    ensures (forall x <- EventsOf(Deliver(db, es), k) :: Deliver(db, es).issues[k].firstSeen <= x.ts) <==>
              forall i :: 0 <= i < |es| && Arrives(db, es, i) && es[i].issue == k ==>
                  FirstArrival(db, es, k).value.key.ts <= es[i].key.ts
  {
    FirstSeenIsFirstArrival(db, es, k);
    var d, first := Deliver(db, es), FirstArrival(db, es, k).value.key.ts;
    if forall i :: 0 <= i < |es| && Arrives(db, es, i) && es[i].issue == k ==> first <= es[i].key.ts {
      forall x | x in EventsOf(d, k) ensures first <= x.ts {
        UnseenIssue(db, k);
        DeliverKeepsKeys(db, es);
        assert x !in EventsOf(db, k);
        var i := StoredHasArrived(db, es, x);
        ArrivedIsStored(db, es, i);
      }
    }
    if forall x <- EventsOf(d, k) :: first <= x.ts {
      forall i | 0 <= i < |es| && Arrives(db, es, i) && es[i].issue == k ensures first <= es[i].key.ts {
        ArrivedIsStored(db, es, i);
        assert es[i].key in EventsOf(d, k);
      }
    }
  }

  lemma SameRows(a: Db, b: Db)
    requires RowsSeen(a) && RowsSeen(b) && a.events == b.events
    ensures a.userHashes == b.userHashes && a.rollups.Keys == b.rollups.Keys && a.issues.Keys == b.issues.Keys
  {
    assert IssuesSeen(a) == IssuesSeen(b) && UsersSeen(a) == UsersSeen(b) && HoursSeen(a) == HoursSeen(b);
  }

  lemma SameRollups(a: Db, b: Db)
    requires RollupsCounted(a) && RollupsCounted(b) && a.events == b.events && a.rollups.Keys == b.rollups.Keys
    ensures a.rollups == b.rollups
  {
    forall r | r in a.rollups ensures a.rollups[r] == b.rollups[r] {
      assert EventsIn(a, r.0, r.1) == EventsIn(b, r.0, r.1);
    }
  }

  lemma SameIssueCounters(a: Db, b: Db, k: IssueKey)
    requires IssuesCounted(a) && IssuesCounted(b) && IssuesDated(a) && IssuesDated(b)
    requires a.events == b.events && a.userHashes == b.userHashes && k in a.issues && k in b.issues
    ensures a.issues[k].count == b.issues[k].count && a.issues[k].userCount == b.issues[k].userCount
    ensures a.issues[k].lastSeen == b.issues[k].lastSeen
  {
    assert EventsOf(a, k) == EventsOf(b, k) && UsersOf(a, k) == UsersOf(b, k);
    assert Dated(a, k, a.issues[k].lastSeen, a.issues[k].firstSeen);
    assert Dated(b, k, b.issues[k].lastSeen, b.issues[k].firstSeen);
  }

  /** Equal event tables and the law fix every counter and last_seen. */
  lemma SameEventsSameCounters(a: Db, b: Db)
    requires Derived(a) && Derived(b) && a.events == b.events
    ensures a.userHashes == b.userHashes && a.rollups == b.rollups && a.issues.Keys == b.issues.Keys
    ensures forall k <- a.issues ::
              && a.issues[k].count == b.issues[k].count && a.issues[k].userCount == b.issues[k].userCount
              && a.issues[k].lastSeen == b.issues[k].lastSeen
  {
    SameRows(a, b);
    SameRollups(a, b);
    forall k | k in a.issues
      ensures a.issues[k].count == b.issues[k].count && a.issues[k].userCount == b.issues[k].userCount
      ensures a.issues[k].lastSeen == b.issues[k].lastSeen
    {
      assert k in b.issues.Keys;
      SameIssueCounters(a, b, k);
    }
  }

  lemma SameEventRow(db: Db, es: seq<Event>, fs: seq<Event>, k: EventKey)
    requires Consistent(es) && (forall e :: e in es <==> e in fs)
    requires Absorbed(db, es, Deliver(db, es).events) && Absorbed(db, fs, Deliver(db, fs).events)
    ensures Lookup(Deliver(db, es).events, k) == Lookup(Deliver(db, fs).events, k)
  {
    if k !in db.events && k in Deliver(db, es).events {
      var e :| e in es && e.key == k;
      assert e in fs;
    }
  }

  lemma SameEventRows(db: Db, es: seq<Event>, fs: seq<Event>)
    requires Consistent(es) && forall e :: e in es <==> e in fs
    ensures Deliver(db, es).events == Deliver(db, fs).events
  {
    var a, b := Deliver(db, es).events, Deliver(db, fs).events;
    DeliverAbsorbs(db, es);
    DeliverAbsorbs(db, fs);
    forall k ensures Lookup(a, k) == Lookup(b, k) {
      SameEventRow(db, es, fs, k);
    }
    SameLookups(a, b);
  }

  lemma SameLookups<K, V>(a: map<K, V>, b: map<K, V>)
    requires forall k :: Lookup(a, k) == Lookup(b, k)
    ensures a == b
  {
    forall k ensures (k in a <==> k in b) && (k in a ==> a[k] == b[k]) {
      assert Lookup(a, k) == Lookup(b, k);
    }
  }

  /** The columns of an issue row that no delivery order can change. */
  predicate SameStanding(a: Issue, b: Issue) {
    a.count == b.count && a.userCount == b.userCount && a.lastSeen == b.lastSeen && a.status == b.status
        && a.substatus == b.substatus
  }

  /**
   Delivering the same set of events in any order, with any repetitions, from the same
   tables ends with the same event rows, user rows, rollups, counts, last_seen and status.
   */
  lemma OrderIsForgotten(db: Db, es: seq<Event>, fs: seq<Event>)
    requires Derived(db) && Consistent(es) && forall e :: e in es <==> e in fs
    ensures Deliver(db, es).events == Deliver(db, fs).events
    ensures Deliver(db, es).userHashes == Deliver(db, fs).userHashes
    ensures Deliver(db, es).rollups == Deliver(db, fs).rollups
    ensures Deliver(db, es).issues.Keys == Deliver(db, fs).issues.Keys
    ensures forall k <- Deliver(db, es).issues :: SameStanding(Deliver(db, es).issues[k], Deliver(db, fs).issues[k])
  {
    SameEventRows(db, es, fs);
    DeliverKeepsDerived(db, es);
    DeliverKeepsDerived(db, fs);
    SameEventsSameCounters(Deliver(db, es), Deliver(db, fs));
    forall k | k in Deliver(db, es).issues ensures SameStanding(Deliver(db, es).issues[k], Deliver(db, fs).issues[k]) {
      StatusesAfter(db, es, k);
      StatusesAfter(db, fs, k);
    }
  }

  /**
   Two orders of the same events give an issue one first_seen exactly when it was there before, or their first arrivals
   are equally old.
   */
  lemma FirstSeenAgreesExactlyWhen(db: Db, es: seq<Event>, fs: seq<Event>, k: IssueKey)
    requires Derived(db) && Consistent(es) && (forall e :: e in es <==> e in fs) && k in Deliver(db, es).issues
    ensures k in Deliver(db, fs).issues
    ensures k !in db.issues ==> FirstArrival(db, es, k).Some? && FirstArrival(db, fs, k).Some?
    ensures Deliver(db, es).issues[k].firstSeen == Deliver(db, fs).issues[k].firstSeen <==>
              k in db.issues || FirstArrival(db, es, k).value.key.ts == FirstArrival(db, fs, k).value.key.ts
  {
    OrderIsForgotten(db, es, fs);
    assert k in Deliver(db, fs).issues.Keys;
    if k in db.issues {
      StatusesAfter(db, es, k);
      StatusesAfter(db, fs, k);
    } else {
      FirstSeenIsFirstArrival(db, es, k);
      FirstSeenIsFirstArrival(db, fs, k);
    }
  }
}
