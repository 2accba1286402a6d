/**
 Process: one envelope inside one transaction, written as the store's own statements over
 mutable tables, with the accounting of what happened to each item.
 */
module Pipeline {
  import opened Wrappers
  import opened IngestDb
  import opened IngestLaws

  /** What JSON decoding, id resolution and normalisation made of an item's payload. */
  datatype Body = Malformed | EventBody(event: Event) | TransactionBody(key: EventKey) | OtherBody

  datatype Item = Item(kind: string, body: Body)

  datatype AlertSignal = AlertSignal(issue: IssueKey, event: EventKey, isNew: bool, isRegression: bool)

  datatype ProcessResult = ProcessResult(accepted: nat, ignored: nat, unknown: nat, duplicates: nat,
      signals: seq<AlertSignal>)

  /** All rows an envelope can touch; `db` holds those of error events. */
  datatype Rows = Rows(db: Db, transactions: set<EventKey>, unknownItems: map<string, nat>)

  const NOTHING := ProcessResult(0, 0, 0, 0, [])

  const STORED_ELSEWHERE := {"session", "sessions", "feedback", "user_report"}

  const TOLERATED := {"client_report", "attachment", "profile", "profile_chunk", "replay_event",
                      "replay_recording", "replay_video", "check_in", "log", "otel_log", "span",
                      "trace_metric", "security"}

  function SignalFor(db: Db, e: Event): AlertSignal {
    var row := Lookup(db.issues, e.issue);
    AlertSignal(e.issue, e.key, row.None?, row.Some? && row.value.status == Resolved)
  }

  /** One item: an error aborts the envelope. */
  function ProcessItem(rows: Rows, res: ProcessResult, item: Item): Result<(Rows, ProcessResult)> {
    if item.kind == "event" then
      if !item.body.EventBody? then Err("event item") else
      var e := item.body.event;
      if e.key in rows.db.events then Ok((rows, res.(duplicates := res.duplicates + 1)))
      else Ok((rows.(db := ApplyEvent(rows.db, e)),
          res.(accepted := res.accepted + 1, signals := res.signals + [SignalFor(rows.db, e)])))
    else if item.kind == "transaction" then
      if !item.body.TransactionBody? then Err("transaction item") else
      if item.body.key in rows.transactions then Ok((rows, res.(duplicates := res.duplicates + 1)))
      else Ok((rows.(transactions := rows.transactions + {item.body.key}), res.(accepted := res.accepted + 1)))
    else if item.kind in STORED_ELSEWHERE then
      if item.body.Malformed? then Err(item.kind + " item") else Ok((rows, res.(accepted := res.accepted + 1)))
    else if item.kind in TOLERATED then
      Ok((rows, res.(ignored := res.ignored + 1)))
    else
      var n := if item.kind in rows.unknownItems then rows.unknownItems[item.kind] else 0;
      Ok((rows.(unknownItems := rows.unknownItems[item.kind := n + 1]), res.(unknown := res.unknown + 1)))
  }

  function ProcessItems(rows: Rows, items: seq<Item>): Result<(Rows, ProcessResult)> {
    if items == [] then Ok((rows, NOTHING)) else
    match ProcessItems(rows, items[..|items| - 1])
    case Err(m) => Err(m)
    case Ok(done) => ProcessItem(done.0, done.1, items[|items| - 1])
  }

  class IngestStore {
    var events: map<EventKey, EventRow>
    var issues: map<IssueKey, Issue>
    var userHashes: set<UserRow>
    var rollups: map<RollupKey, nat>
    var transactions: set<EventKey>
    var unknownItems: map<string, nat>

    function Current(): Rows
      reads this
    {
      Rows(Db(events, issues, userHashes, rollups), transactions, unknownItems)
    }

    constructor ()
      ensures Current() == Rows(EMPTY, {}, map[])
    {
      events, issues, userHashes, rollups, transactions, unknownItems := map[], map[], {}, map[], {}, map[];
    }

    /** Creates or folds into the issue row, then counts the user if its row is new. */
    method UpsertIssue(e: Event) returns (isNew: bool, isRegression: bool)
      modifies `issues, `userHashes
      ensures var row := Upserted(Lookup(old(issues), e.issue), e);
              var newUser := AddsUser(old(Current()).db, e);
              && issues == old(issues)[e.issue := if newUser then row.(userCount := row.userCount + 1) else row]
              && userHashes == if newUser then old(userHashes) + {(e.issue, e.user)} else old(userHashes)
      ensures isNew <==> e.issue !in old(issues)
      ensures isRegression <==> e.issue in old(issues) && old(issues)[e.issue].status == Resolved
    {
      isNew := e.issue !in issues;
      isRegression := e.issue in issues && issues[e.issue].status == Resolved;
      issues := issues[e.issue := Upserted(Lookup(issues, e.issue), e)];
      if e.user != "" {
        if (e.issue, e.user) !in userHashes {
          userHashes := userHashes + {(e.issue, e.user)};
          issues := issues[e.issue := issues[e.issue].(userCount := issues[e.issue].userCount + 1)];
        }
      }
    }

    /** Persists one error event; a key conflict touches no counter. */
    method StoreEvent(e: Event) returns (dup: bool, signal: Option<AlertSignal>)
      modifies this
      ensures Current() == old(Current()).(db := ApplyEvent(old(Current()).db, e))
      ensures dup <==> e.key in old(events)
      ensures signal == if dup then None else Some(SignalFor(old(Current()).db, e))
      ensures signal.Some? ==>
                && signal.value.issue == e.issue && signal.value.event == e.key
                && (signal.value.isNew <==> e.issue !in old(issues))
                && (signal.value.isRegression <==> e.issue in old(issues) && old(issues)[e.issue].status == Resolved)
    {
      if e.key in events {
        return true, None;
      }
      var isNew, isRegression := StoreRows(e);
      dup, signal := false, Some(AlertSignal(e.issue, e.key, isNew, isRegression));
    }

    /** The rows of an event that is no duplicate: event, issue and user, link, rollup. */
    method StoreRows(e: Event) returns (isNew: bool, isRegression: bool)
      requires e.key !in events
      modifies this
      ensures Current() == old(Current()).(db := ApplyEvent(old(Current()).db, e))
      ensures isNew <==> e.issue !in old(issues)
      ensures isRegression <==> e.issue in old(issues) && old(issues)[e.issue].status == Resolved
    {
      events := events[e.key := EventRow(e, None)];
      isNew, isRegression := UpsertIssue(e);
      events := events[e.key := events[e.key].(issueId := Some(e.issue))];
      var k := (e.issue, HourOf(e.key.ts));
      rollups := rollups[k := if k in rollups then rollups[k] + 1 else 1];
      PutTwice(old(Current()).db, e, false);
    }

    method Rollback(to: Rows)
      modifies this
      ensures Current() == to
    {
      events, issues, userHashes, rollups := to.db.events, to.db.issues, to.db.userHashes, to.db.rollups;
      transactions, unknownItems := to.transactions, to.unknownItems;
    }

    /** The body of the loop: one item, by its type. */
    method Handle(item: Item, before: ProcessResult) returns (r: Result<ProcessResult>)
      modifies this
      ensures match ProcessItem(old(Current()), before, item)
              case Ok(done) => Current() == done.0 && r == Ok(done.1)
              case Err(_) => r.Err?
    {
      var res := before;
      if item.kind == "event" {
        if !item.body.EventBody? {
          return Err("event item");
        }
        var dup, signal := StoreEvent(item.body.event);
        if dup {
          res := res.(duplicates := res.duplicates + 1);
        } else {
          res := res.(accepted := res.accepted + 1, signals := res.signals + [signal.value]);
        }
      } else if item.kind == "transaction" {
        if !item.body.TransactionBody? {
          return Err("transaction item");
        }
        if item.body.key in transactions {
          res := res.(duplicates := res.duplicates + 1);
        } else {
          transactions := transactions + {item.body.key};
          res := res.(accepted := res.accepted + 1);
        }
      } else if item.kind in STORED_ELSEWHERE {
        if item.body.Malformed? {
          return Err(item.kind + " item");
        }
        res := res.(accepted := res.accepted + 1);
      } else if item.kind in TOLERATED {
        res := res.(ignored := res.ignored + 1);
      } else {
        var n := if item.kind in unknownItems then unknownItems[item.kind] else 0;
        unknownItems := unknownItems[item.kind := n + 1];
        res := res.(unknown := res.unknown + 1);
      }
      r := Ok(res);
    }

    /**
     The envelope's transaction. `fault` is the item at which the database fails, the number of items standing
     for the commit; whatever that item wrote before is rolled back with the rest.
     */
    method Process(items: seq<Item>, fault: Option<nat>) returns (r: Result<ProcessResult>)
      modifies this
      ensures match ProcessItems(old(Current()), items)
              case Ok(done) =>
                if fault.Some? && fault.value <= |items| then Current() == old(Current()) && r.Err?
                else Current() == done.0 && r == Ok(done.1)
              case Err(_) => Current() == old(Current()) && r.Err?
    {
      var before := Current();
      var res := NOTHING;
      var i := 0;
      while i < |items|
        invariant i <= |items| && (fault.Some? ==> fault.value >= i)
        invariant ProcessItems(before, items[..i]) == Ok((Current(), res))
      {
        assert items[..i + 1][..i] == items[..i];
        var done := Handle(items[i], res);
        if done.Err? || fault == Some(i) {
          if done.Err? {
            FailureSticks(before, items, i + 1);
          }
          Rollback(before);
          return if done.Err? then done else Err("statement");
        }
        res := done.value;
        i := i + 1;
      }
      assert items[..i] == items;
      if fault == Some(i) {
        Rollback(before);
        return Err("commit");
      }
      r := Ok(res);
    }
  }

  /** Once an item fails, so does the envelope. */
  lemma {:induction false} FailureSticks(rows: Rows, items: seq<Item>, n: nat)
    requires n <= |items| && ProcessItems(rows, items[..n]).Err?
    ensures ProcessItems(rows, items).Err?
  {
    if n == |items| {
      assert items[..n] == items;
    } else {
      FailureSticks(rows, items[..|items| - 1], n) by {
        assert items[..|items| - 1][..n] == items[..n];
      }
    }
  }

  /** The number of items that stored a new error event. */
  function NewEvents(rows: Rows, items: seq<Item>): nat
    requires ProcessItems(rows, items).Ok?
  {
    if items == [] then 0 else
    var front, last := items[..|items| - 1], items[|items| - 1];
    var before := ProcessItems(rows, front).value.0;
    NewEvents(rows, front) + (if last.kind == "event" && last.body.event.key !in before.db.events then 1 else 0)
  }

  /** Every item is counted once, and there is one signal per stored error event. */
  lemma {:induction false} EveryItemCountedOnce(rows: Rows, items: seq<Item>)
    requires ProcessItems(rows, items).Ok?
    ensures var res := ProcessItems(rows, items).value.1;
            && res.accepted + res.ignored + res.unknown + res.duplicates == |items|
            && |res.signals| == NewEvents(rows, items)
  {
    if items == [] {
    } else {
      EveryItemCountedOnce(rows, items[..|items| - 1]);
    }
  }

  // ---- what each count counts ----

  /** Types that are answered with success and not stored. */
  predicate KnownAndIgnored(kind: string) {
    kind in ["client_report", "attachment", "profile", "profile_chunk", "replay_event", "replay_recording",
             "replay_video", "check_in", "log", "otel_log", "span", "trace_metric", "security"]
  }

  predicate Supported(kind: string) {
    kind in ["event", "transaction", "session", "sessions", "feedback", "user_report"]
  }

  /** The keys of the error events, or of the transactions, among the items. */
  function EventKeysIn(items: seq<Item>): set<EventKey> {
    set x | x in items && x.kind == "event" && x.body.EventBody? :: x.body.event.key
  }

  function TransactionKeysIn(items: seq<Item>): set<EventKey> {
    set x | x in items && x.kind == "transaction" && x.body.TransactionBody? :: x.body.key
  }

  /** The item repeats an event or transaction that is stored already or came earlier in the envelope. */
  predicate Repeats(rows: Rows, items: seq<Item>, i: nat)
    requires i < |items|
  {
    || (items[i].kind == "event" && items[i].body.EventBody?
        && items[i].body.event.key in rows.db.events.Keys + EventKeysIn(items[..i]))
    || (items[i].kind == "transaction" && items[i].body.TransactionBody?
        && items[i].body.key in rows.transactions + TransactionKeysIn(items[..i]))
  }

  function CountTo(n: nat, p: nat -> bool): nat {
    if n == 0 then 0 else CountTo(n - 1, p) + (if p(n - 1) then 1 else 0)
  }

  function Repeating(rows: Rows, items: seq<Item>): nat -> bool { (i: nat) => i < |items| && Repeats(rows, items, i) }

  function Stores(rows: Rows, items: seq<Item>): nat -> bool {
    (i: nat) => i < |items| && Supported(items[i].kind) && !Repeats(rows, items, i)
  }

  function Ignores(items: seq<Item>): nat -> bool { (i: nat) => i < |items| && KnownAndIgnored(items[i].kind) }

  function Unknowns(items: seq<Item>): nat -> bool {
    (i: nat) => i < |items| && !Supported(items[i].kind) && !KnownAndIgnored(items[i].kind)
  }

  lemma {:induction false} SameCounts(n: nat, p: nat -> bool, q: nat -> bool)
    requires forall i: nat :: i < n ==> p(i) == q(i)
    ensures CountTo(n, p) == CountTo(n, q)
  {
    if n == 0 {
    } else {
      SameCounts(n - 1, p, q);
    }
  }

  lemma KeysOfOneMore(front: seq<Item>, last: Item)
    ensures EventKeysIn(front + [last]) ==
            EventKeysIn(front) + (if last.kind == "event" && last.body.EventBody? then {last.body.event.key} else {})
    ensures TransactionKeysIn(front + [last]) ==
            TransactionKeysIn(front)
              + (if last.kind == "transaction" && last.body.TransactionBody? then {last.body.key} else {})
  {
    assert last in front + [last];
    assert forall x :: x in front ==> x in front + [last];
  }

  /** What one item adds to the stored keys. */
  lemma ItemStores(rows: Rows, res: ProcessResult, item: Item)
    requires ProcessItem(rows, res, item).Ok?
    ensures var after := ProcessItem(rows, res, item).value.0;
            && after.db.events.Keys ==
                 rows.db.events.Keys + (if item.kind == "event" && item.body.EventBody? then {item.body.event.key}
                     else {})
            && after.transactions ==
                 rows.transactions
                   + (if item.kind == "transaction" && item.body.TransactionBody? then {item.body.key} else {})
  {
  }

  /** Which event and transaction keys are stored after an envelope. */
  lemma {:induction false} KeysStored(rows: Rows, items: seq<Item>)
    requires ProcessItems(rows, items).Ok?
    ensures var after := ProcessItems(rows, items).value.0;
            && after.db.events.Keys == rows.db.events.Keys + EventKeysIn(items)
            && after.transactions == rows.transactions + TransactionKeysIn(items)
  {
    if items == [] {
    } else {
      var front, last := items[..|items| - 1], items[|items| - 1];
      KeysStored(rows, front);
      var before := ProcessItems(rows, front).value;
      ItemStores(before.0, before.1, last);
      KeysOfOneMore(front, last);
      assert items == front + [last];
    }
  }

  /** The item's key is stored already. */
  predicate Known(rows: Rows, item: Item) {
    || (item.kind == "event" && item.body.EventBody? && item.body.event.key in rows.db.events)
    || (item.kind == "transaction" && item.body.TransactionBody? && item.body.key in rows.transactions)
  }

  /** What one item adds to the counts. */
  lemma ItemCounts(rows: Rows, res: ProcessResult, item: Item)
    requires ProcessItem(rows, res, item).Ok?
    ensures var after := ProcessItem(rows, res, item).value.1;
            && after.accepted == res.accepted + (if Supported(item.kind) && !Known(rows, item) then 1 else 0)
            && after.duplicates == res.duplicates + (if Known(rows, item) then 1 else 0)
            && after.ignored == res.ignored + (if KnownAndIgnored(item.kind) then 1 else 0)
            && after.unknown == res.unknown + (if !Supported(item.kind) && !KnownAndIgnored(item.kind) then 1 else 0)
  {
  }

  lemma OneItemCounts(rows: Rows, items: seq<Item>)
    requires items != [] && ProcessItems(rows, items).Ok?
    ensures var n := |items| - 1;
            ProcessItems(rows, items[..n]).Ok? &&
            var before, after := ProcessItems(rows, items[..n]).value.1, ProcessItems(rows, items).value.1;
            && after.accepted == before.accepted + (if Stores(rows, items)(n) then 1 else 0)
            && after.duplicates == before.duplicates + (if Repeating(rows, items)(n) then 1 else 0)
            && after.ignored == before.ignored + (if Ignores(items)(n) then 1 else 0)
            && after.unknown == before.unknown + (if Unknowns(items)(n) then 1 else 0)
  {
    var n := |items| - 1;
    var before := ProcessItems(rows, items[..n]).value;
    KeysStored(rows, items[..n]);
    assert Known(before.0, items[n]) == Repeats(rows, items, n);
    ItemCounts(before.0, before.1, items[n]);
  }

  /**
   Of a stored envelope, duplicates are the repeated events and transactions, accepted the other items of a supported
   type, ignored the known types that are not stored, unknown all the rest.
   */
  lemma {:induction false} EachCountSays(rows: Rows, items: seq<Item>)
    requires ProcessItems(rows, items).Ok?
    ensures var res := ProcessItems(rows, items).value.1;
            && res.accepted == CountTo(|items|, Stores(rows, items))
            && res.duplicates == CountTo(|items|, Repeating(rows, items))
            && res.ignored == CountTo(|items|, Ignores(items)) && res.unknown == CountTo(|items|, Unknowns(items))
  {
    if items == [] {
    } else {
      var n := |items| - 1;
      OneItemCounts(rows, items);
      EachCountSays(rows, items[..n]);
      CountsOfFront(rows, items);
    }
  }

  lemma RepeatsInFront(rows: Rows, items: seq<Item>, i: nat)
    requires i + 1 < |items|
    ensures Repeats(rows, items[..|items| - 1], i) == Repeats(rows, items, i)
  {
    assert items[..|items| - 1][..i] == items[..i];
  }

  lemma CountsOfFront(rows: Rows, items: seq<Item>)
    requires items != []
    ensures var n := |items| - 1;
            && CountTo(n, Stores(rows, items[..n])) == CountTo(n, Stores(rows, items))
            && CountTo(n, Repeating(rows, items[..n])) == CountTo(n, Repeating(rows, items))
            && CountTo(n, Ignores(items[..n])) == CountTo(n, Ignores(items))
            && CountTo(n, Unknowns(items[..n])) == CountTo(n, Unknowns(items))
  {
    var n := |items| - 1;
    forall i: nat | i < n ensures Repeats(rows, items[..n], i) == Repeats(rows, items, i) {
      RepeatsInFront(rows, items, i);
    }
    SameCounts(n, Stores(rows, items[..n]), Stores(rows, items));
    SameCounts(n, Repeating(rows, items[..n]), Repeating(rows, items));
    SameCounts(n, Ignores(items[..n]), Ignores(items));
    SameCounts(n, Unknowns(items[..n]), Unknowns(items));
  }

  function UnknownOf(items: seq<Item>, kind: string): nat -> bool {
    (i: nat) => i < |items| && items[i].kind == kind && !Supported(kind) && !KnownAndIgnored(kind)
  }

  lemma ItemAddsUnknown(rows: Rows, res: ProcessResult, item: Item, kind: string)
    requires ProcessItem(rows, res, item).Ok?
    ensures var before, after := rows.unknownItems, ProcessItem(rows, res, item).value.0.unknownItems;
            (if kind in after then after[kind] else 0) ==
            (if kind in before then before[kind] else 0)
              + (if item.kind == kind && !Supported(kind) && !KnownAndIgnored(kind) then 1 else 0)
  {
  }

  /** The per-type statistics count the unknown items of the type, and nothing else. */
  lemma {:induction false} UnknownTypesAreCounted(rows: Rows, items: seq<Item>, kind: string)
    requires ProcessItems(rows, items).Ok?
    ensures var after := ProcessItems(rows, items).value.0.unknownItems;
            (if kind in after then after[kind] else 0) ==
            (if kind in rows.unknownItems then rows.unknownItems[kind] else 0)
                + CountTo(|items|, UnknownOf(items, kind))
  {
    if items == [] {
    } else {
      var n := |items| - 1;
      UnknownTypesAreCounted(rows, items[..n], kind);
      SameCounts(n, UnknownOf(items[..n], kind), UnknownOf(items, kind));
      var before := ProcessItems(rows, items[..n]).value;
      ItemAddsUnknown(before.0, before.1, items[n], kind);
    }
  }

  /** The event bodies of the items, in order. */
  function EventsOfItems(items: seq<Item>): seq<Event> {
    if items == [] then [] else
    var last := items[|items| - 1];
    EventsOfItems(items[..|items| - 1])
        + (if last.kind == "event" && last.body.EventBody? then [last.body.event] else [])
  }

  lemma ItemDelivers(rows: Rows, res: ProcessResult, item: Item)
    requires ProcessItem(rows, res, item).Ok?
    ensures ProcessItem(rows, res, item).value.0.db ==
            if item.kind == "event" && item.body.EventBody? then ApplyEvent(rows.db, item.body.event) else rows.db
  {
  }

  lemma {:induction false} ItemsDeliver(rows: Rows, items: seq<Item>)
    requires ProcessItems(rows, items).Ok?
    ensures ProcessItems(rows, items).value.0.db == Deliver(rows.db, EventsOfItems(items))
  {
    if items == [] {
    } else {
      var front, last := items[..|items| - 1], items[|items| - 1];
      ItemsDeliver(rows, front);
      var before, es := ProcessItems(rows, front).value, EventsOfItems(front);
      ItemDelivers(before.0, before.1, last);
      if last.kind == "event" && last.body.EventBody? {
        assert (es + [last.body.event])[..|es|] == es;
      } else {
        assert es + [] == es;
      }
    }
  }

  /** A stored envelope delivers its events and nothing else to the event tables, and keeps their law. */
  lemma {:induction false} EnvelopeDelivers(rows: Rows, items: seq<Item>)
    requires ProcessItems(rows, items).Ok?
    ensures ProcessItems(rows, items).value.0.db == Deliver(rows.db, EventsOfItems(items))
    ensures Derived(rows.db) ==> Derived(ProcessItems(rows, items).value.0.db)
  {
    ItemsDeliver(rows, items);
    if Derived(rows.db) {
      DeliverKeepsDerived(rows.db, EventsOfItems(items));
    }
  }

  predicate OnlyEvents(items: seq<Item>) {
    forall x :: x in items ==> x.kind == "event" && x.body.EventBody?
  }

  /** Sending an envelope of events again is answered with duplicates only and changes no row. */
  lemma {:induction false} RedeliveredEnvelope(rows: Rows, items: seq<Item>)
    requires OnlyEvents(items) && forall x :: x in items ==> x.body.event.key in rows.db.events
    ensures ProcessItems(rows, items) == Ok((rows, NOTHING.(duplicates := |items|)))
  {
    if items == [] {
    } else {
      RedeliveredEnvelope(rows, items[..|items| - 1]);
      assert items[|items| - 1] in items;
    }
  }

  /** After an envelope of events is stored once, its redelivery meets the precondition above. */
  lemma {:induction false} StoredOnceMeansPresent(rows: Rows, items: seq<Item>)
    requires OnlyEvents(items)
    ensures ProcessItems(rows, items).Ok?
    ensures var after := ProcessItems(rows, items).value.0;
            && rows.db.events.Keys <= after.db.events.Keys
            && (forall x :: x in items ==> x.body.event.key in after.db.events)
            && ProcessItems(after, items) == Ok((after, NOTHING.(duplicates := |items|)))
  {
    if items == [] {
    } else {
      var front, last := items[..|items| - 1], items[|items| - 1];
      assert items == front + [last] && last in items;
      StoredOnceMeansPresent(rows, front);
    }
    RedeliveredEnvelope(ProcessItems(rows, items).value.0, items);
  }
}
