/**
 Any number of ingest transactions, interleaved statement by statement under READ COMMITTED.
 An active transaction keeps the row versions it wrote in an overlay nobody else sees; a statement
 waits while a row it writes is in another active overlay. Commit publishes the overlay, rollback drops it.
 */
module Interleaving {
  import opened Wrappers
  import opened IngestDb
  import opened IngestLaws

  type TxId = nat

  /**
   The alert signal of one stored event. `created` and `regressed` record what its upsert did to the issue row:
   inserted it, or flipped it from resolved.
   */
  datatype Signal = Signal(issue: IssueKey, event: EventKey, isNew: bool, isRegression: bool, created: bool,
      regressed: bool)

  /** An active transaction: `done` events are finished, `pc` statements of the next one have run. */
  datatype Tx = Tx(items: seq<Event>, done: nat, pc: nat, ov: Db,
                   preRead: Option<Status>, newUser: bool, created: bool, regressed: bool, signals: seq<Signal>)

  datatype Entry = Delivered(items: seq<Event>, signals: seq<Signal>) | Triaged(issue: IssueKey, status: Status)

  /** `log` lists the commits, oldest first. */
  datatype State = State(db: Db, txs: map<TxId, Tx>, log: seq<Entry>)

  datatype Step = Begin(id: TxId, items: seq<Event>) | Exec(id: TxId) | Commit(id: TxId) | Rollback(id: TxId)
                | Triage(issue: IssueKey, status: Status)

  function NewTx(items: seq<Event>): Tx { Tx(items, 0, 0, EMPTY, None, false, false, false, []) }

  /** The status of an issue's row, if it has one. */
  function StatusIn(v: Db, k: IssueKey): Option<Status> { if k in v.issues then Some(v.issues[k].status) else None }

  predicate Ready(t: Tx) { t.done < |t.items| && t.pc < STATEMENTS }

  function SignalOf(e: Event, t: Tx): Signal {
    Signal(e.issue, e.key, t.preRead.None?, t.preRead == Some(Resolved), t.created, t.regressed)
  }

  /** The next statement of a transaction, reading the committed tables below its own rows. */
  function RunStatement(db: Db, t: Tx): Tx
    requires Ready(t)
  {
    var e := t.items[t.done];
    var v := Merge(db, t.ov);
    if t.pc == 0 then
      if e.key in v.events then t.(done := t.done + 1) else t.(pc := 1, ov := InsertEvent(t.ov, e))
    else if t.pc == 1 then
      t.(pc := 2, preRead := StatusIn(v, e.issue))
    else if t.pc == 2 then
      t.(pc := 3, ov := UpsertIssue(db, t.ov, e), created := e.issue !in v.issues,
          regressed := StatusIn(v, e.issue) == Some(Resolved))
    else if t.pc == 3 then
      t.(pc := 4, ov := InsertUser(db, t.ov, e), newUser := NewUser(db, t.ov, e))
    else if t.pc == 4 then
      t.(pc := 5, ov := BumpUsers(db, t.ov, e, t.newUser))
    else if t.pc == 5 then
      t.(pc := 6, ov := LinkEvent(db, t.ov, e))
    else
      t.(pc := 0, done := t.done + 1, ov := BumpRollup(db, t.ov, e),
         signals := t.signals + [SignalOf(e, t)])
  }

  /** No row was written by both. */
  predicate Disjoint(a: Db, b: Db) {
    a.events.Keys !! b.events.Keys && a.issues.Keys !! b.issues.Keys && a.userHashes !! b.userHashes
        && a.rollups.Keys !! b.rollups.Keys
  }

  predicate Finished(t: Tx) { t.done == |t.items| && t.pc == 0 }

  predicate NextBy(s: State, step: Step, s': State) {
    match step
    case Begin(id, items) => id !in s.txs && s' == s.(txs := s.txs[id := NewTx(items)])
    case Exec(id) =>
      && id in s.txs && Ready(s.txs[id])
      && var t := RunStatement(s.db, s.txs[id]);
         (forall j <- s.txs :: j != id ==> Disjoint(t.ov, s.txs[j].ov)) && s' == s.(txs := s.txs[id := t])
    case Commit(id) =>
      && id in s.txs && Finished(s.txs[id])
      && s' == State(Merge(s.db, s.txs[id].ov), s.txs - {id}, s.log + [Delivered(s.txs[id].items, s.txs[id].signals)])
    case Rollback(id) => id in s.txs && s' == s.(txs := s.txs - {id})
    case Triage(k, st) =>
      && k in s.db.issues && (forall j <- s.txs :: k !in s.txs[j].ov.issues)
      && s' == s.(db := SetStatus(s.db, k, st), log := s.log + [Triaged(k, st)])
  }

  ghost predicate Next(s: State, s': State) { exists step :: NextBy(s, step, s') }

  ghost predicate IsRun(init: Db, ss: seq<State>) {
    && |ss| > 0 && ss[0] == State(init, map[], [])
    && forall i :: 0 <= i < |ss| - 1 ==> Next(ss[i], ss[i + 1])
  }

  /** The log carried out one commit at a time. */
  function Replay(init: Db, log: seq<Entry>): Db {
    if log == [] then init else
    var before := Replay(init, log[..|log| - 1]);
    match log[|log| - 1]
    case Delivered(items, _) => Deliver(before, items)
    case Triaged(k, st) => SetStatus(before, k, st)
  }

  // ---- another transaction's commit leaves an active overlay what it was ----

  predicate Grows(a: Db, b: Db) {
    a.events.Keys <= b.events.Keys && a.issues.Keys <= b.issues.Keys && a.userHashes <= b.userHashes
        && a.rollups.Keys <= b.rollups.Keys
  }

  lemma StatementGrows(db: Db, o: Db, e: Event, n: nat, isNew: bool)
    ensures Grows(o, Statement(db, o, e, n, isNew))
    ensures n == 1 ==> e.key in Statement(db, o, e, n, isNew).events
    ensures n == 3 ==> e.issue in Statement(db, o, e, n, isNew).issues
    ensures n < 4 ==> Statement(db, o, e, n, isNew).userHashes == o.userHashes
  {
  }

  lemma {:induction false} OverlayGrows(db: Db, o: Db, e: Event, pc: nat)
    ensures Grows(o, Overlay(db, o, e, pc))
    ensures pc >= 1 ==> e.key in Overlay(db, o, e, pc).events
    ensures pc >= 3 ==> e.issue in Overlay(db, o, e, pc).issues
    ensures pc < 4 ==> Overlay(db, o, e, pc).userHashes == o.userHashes
    ensures pc >= 4 && NewUser(db, o, e) ==> (e.issue, e.user) in Overlay(db, o, e, pc).userHashes
  {
    if pc == 0 {
    } else {
      OverlayGrows(db, o, e, pc - 1);
      StatementGrows(db, Overlay(db, o, e, pc - 1), e, pc, NewUser(db, o, e));
    }
  }

  lemma LookupFrame<K, V>(m: map<K, V>, w: map<K, V>, o: map<K, V>, k: K)
    requires k !in w
    ensures Lookup((m + w) + o, k) == Lookup(m + o, k)
  {
  }

  lemma UpsertFrame(db: Db, w: Db, o: Db, e: Event)
    requires Disjoint(UpsertIssue(db, o, e), w)
    ensures UpsertIssue(Merge(db, w), o, e) == UpsertIssue(db, o, e)
  {
    assert e.issue in UpsertIssue(db, o, e).issues;
    LookupFrame(db.issues, w.issues, o.issues, e.issue);
  }

  lemma RollupFrame(db: Db, w: Db, o: Db, e: Event)
    requires Disjoint(BumpRollup(db, o, e), w)
    ensures BumpRollup(Merge(db, w), o, e) == BumpRollup(db, o, e)
  {
    var k := (e.issue, HourOf(e.key.ts));
    assert k in BumpRollup(db, o, e).rollups;
    LookupFrame(db.rollups, w.rollups, o.rollups, k);
  }

  /** A statement reads the rows it writes, so a commit disjoint from its result does not change it. */
  lemma StatementFrame(db: Db, w: Db, o: Db, e: Event, n: nat, isNew: bool)
    requires Disjoint(Statement(db, o, e, n, isNew), w)
    requires (n == 5 ==> e.issue in o.issues) && (n == 6 ==> e.key in o.events)
    ensures Statement(Merge(db, w), o, e, n, isNew) == Statement(db, o, e, n, isNew)
  {
    if n == 3 {
      UpsertFrame(db, w, o, e);
    } else if n == 4 {
      assert NewUser(db, o, e) ==> (e.issue, e.user) in InsertUser(db, o, e).userHashes;
      UserFrame(db, w, o, e);
    } else if n == 7 {
      RollupFrame(db, w, o, e);
    }
  }

  lemma DisjointShrinks(a: Db, b: Db, w: Db)
    requires Grows(a, b) && Disjoint(b, w)
    ensures Disjoint(a, w)
  {
  }

  lemma {:induction false} OverlayFrame(db: Db, w: Db, o: Db, e: Event, pc: nat)
    requires Disjoint(Overlay(db, o, e, pc), w) && NewUser(db, o, e) == NewUser(Merge(db, w), o, e)
    ensures Overlay(Merge(db, w), o, e, pc) == Overlay(db, o, e, pc)
  {
    if pc == 0 {
    } else {
      var before, isNew := Overlay(db, o, e, pc - 1), NewUser(db, o, e);
      OverlayGrows(db, o, e, pc - 1);
      StatementGrows(db, before, e, pc, isNew);
      DisjointShrinks(before, Overlay(db, o, e, pc), w);
      OverlayFrame(db, w, o, e, pc - 1);
      StatementFrame(db, w, before, e, pc, isNew);
    }
  }

  /** Once its user row is written or waited for, nobody else's commit changes whether the user was new. */
  lemma UserFrame(db: Db, w: Db, o: Db, e: Event)
    requires NewUser(db, o, e) ==> (e.issue, e.user) !in w.userHashes
    ensures NewUser(db, o, e) == NewUser(Merge(db, w), o, e)
  {
  }

  lemma {:induction false} RunFrame(db: Db, w: Db, es: seq<Event>)
    requires Disjoint(Run(db, es), w)
    ensures Run(Merge(db, w), es) == Run(db, es)
  {
    if es == [] {
    } else {
      var front, e := es[..|es| - 1], es[|es| - 1];
      var o := Run(db, front);
      if e.key !in Merge(db, o).events {
        OverlayGrows(db, o, e, STATEMENTS);
        DisjointShrinks(o, Run(db, es), w);
        RunFrame(db, w, front);
        UserFrame(db, w, o, e);
        OverlayFrame(db, w, o, e, STATEMENTS);
      } else {
        RunFrame(db, w, front);
      }
    }
  }

  // ---- the invariant ----

  /** What a transaction inside an event has written so far, given the overlay of its finished events. */
  ghost predicate MidEvent(db: Db, base: Db, e: Event, t: Tx) {
    && e.key !in Merge(db, base).events
    && t.ov == Overlay(db, base, e, t.pc)
    && (t.pc == 4 ==> t.newUser == NewUser(db, base, e))
  }

  /** The overlay is what the statements run so far write when run on the tables as committed now. */
  ghost predicate InStep(db: Db, t: Tx) {
    && t.done <= |t.items| && t.pc < STATEMENTS
    && var base := Run(db, t.items[..t.done]);
       if t.pc == 0 then t.ov == base else t.done < |t.items| && MidEvent(db, base, t.items[t.done], t)
  }

  ghost predicate Inv(init: Db, s: State) {
    && s.db == Replay(init, s.log)
    && (forall i <- s.txs :: InStep(s.db, s.txs[i]))
    && (forall i, j :: i in s.txs && j in s.txs && i != j ==> Disjoint(s.txs[i].ov, s.txs[j].ov))
  }

  /** Below the user insert the overlay does not depend on whether the user is new. */
  lemma {:induction false} EarlyOverlayFrame(db: Db, w: Db, o: Db, e: Event, pc: nat)
    requires pc < 4 && Disjoint(Overlay(db, o, e, pc), w)
    ensures Overlay(Merge(db, w), o, e, pc) == Overlay(db, o, e, pc)
  {
    if pc == 0 {
    } else {
      var before, isNew := Overlay(db, o, e, pc - 1), NewUser(db, o, e);
      OverlayGrows(db, o, e, pc - 1);
      StatementGrows(db, before, e, pc, isNew);
      DisjointShrinks(before, Overlay(db, o, e, pc), w);
      EarlyOverlayFrame(db, w, o, e, pc - 1);
      StatementFrame(db, w, before, e, pc, isNew);
      OverlayStep(Merge(db, w), o, e, pc - 1, before);
    }
  }

  /** Another transaction's commit leaves an active overlay what it was. */
  lemma ForeignCommitKeepsInStep(db: Db, w: Db, t: Tx)
    requires InStep(db, t) && Disjoint(t.ov, w)
    ensures InStep(Merge(db, w), t)
  {
    var front := t.items[..t.done];
    var base := Run(db, front);
    if t.pc == 0 {
      RunFrame(db, w, front);
    } else {
      var e := t.items[t.done];
      OverlayGrows(db, base, e, t.pc);
      DisjointShrinks(base, t.ov, w);
      RunFrame(db, w, front);
      if t.pc < 4 {
        EarlyOverlayFrame(db, w, base, e, t.pc);
      } else {
        UserFrame(db, w, base, e);
        OverlayFrame(db, w, base, e, t.pc);
      }
    }
  }

  /** What a statement inside an event does, field by field. */
  predicate MidEffect(db: Db, t: Tx, t': Tx)
    requires Ready(t)
  {
    var e, seen := t.items[t.done], StatusIn(Merge(db, t.ov), t.items[t.done].issue);
    && t'.items == t.items && t'.done == t.done && t'.pc == t.pc + 1 && t'.signals == t.signals
    && t'.ov == Statement(db, t.ov, e, t.pc + 1, t.newUser)
    && t'.preRead == (if t.pc == 1 then seen else t.preRead)
    && t'.created == (if t.pc == 2 then seen.None? else t.created)
    && t'.regressed == (if t.pc == 2 then seen == Some(Resolved) else t.regressed)
  }

  lemma MidStatement(db: Db, t: Tx)
    requires Ready(t) && t.pc < STATEMENTS - 1
    requires t.pc != 0 || t.items[t.done].key !in Merge(db, t.ov).events
    ensures MidEffect(db, t, RunStatement(db, t))
  {
  }

  /** Inside an event the next statement writes what the overlay of one more statement holds. */
  lemma NextStatement(db: Db, base: Db, t: Tx)
    requires Ready(t) && t.pc < STATEMENTS && t.ov == Overlay(db, base, t.items[t.done], t.pc)
    requires t.pc == 0 ==> t.items[t.done].key !in Merge(db, t.ov).events
    requires t.pc == 4 ==> t.newUser == NewUser(db, base, t.items[t.done])
    ensures RunStatement(db, t).ov == Overlay(db, base, t.items[t.done], t.pc + 1)
  {
    var e := t.items[t.done];
    assert Overlay(db, base, e, t.pc + 1) == Statement(db, t.ov, e, t.pc + 1, NewUser(db, base, e));
  }

  /** The user insert finds the user new exactly when it was at the start of the event. */
  lemma UserStillNew(db: Db, base: Db, e: Event)
    ensures NewUser(db, Overlay(db, base, e, 3), e) == NewUser(db, base, e)
  {
    OverlayGrows(db, base, e, 3);
  }

  /** Every statement but the last of an event carries on the event. */
  lemma EffectKeepsMidEvent(db: Db, base: Db, t: Tx, t': Tx)
    requires Ready(t) && t.pc < STATEMENTS - 1 && MidEffect(db, t, t')
    requires if t.pc == 0 then t.ov == base && t.items[t.done].key !in Merge(db, base).events
             else MidEvent(db, base, t.items[t.done], t)
    requires t'.ov == Overlay(db, base, t.items[t.done], t.pc + 1)
    requires t.pc == 3 ==> t'.newUser == NewUser(db, base, t.items[t.done])
    ensures MidEvent(db, base, t'.items[t'.done], t')
  {
  }

  lemma MidStatementKeepsInStep(db: Db, t: Tx)
    requires InStep(db, t) && Ready(t) && t.pc < STATEMENTS - 1
    requires t.pc == 0 ==> t.items[t.done].key !in Merge(db, t.ov).events
    ensures InStep(db, RunStatement(db, t))
  {
    var base := Run(db, t.items[..t.done]);
    NextStatement(db, base, t);
    MidStatement(db, t);
    UserStillNew(db, base, t.items[t.done]);
    EffectKeepsMidEvent(db, base, t, RunStatement(db, t));
  }

  lemma RunOneMore(db: Db, items: seq<Event>, n: nat)
    requires n < |items|
    ensures Run(db, items[..n + 1]) == EventOverlay(db, Run(db, items[..n]), items[n])
  {
    assert items[..n + 1][..n] == items[..n];
  }

  lemma LastStatement(db: Db, t: Tx)
    requires Ready(t) && t.pc == STATEMENTS - 1
    ensures var t' := RunStatement(db, t);
            && t'.items == t.items && t'.done == t.done + 1 && t'.pc == 0
            && t'.ov == BumpRollup(db, t.ov, t.items[t.done])
  {
  }

  lemma CompletesEvent(db: Db, base: Db, e: Event, ov: Db)
    requires e.key !in Merge(db, base).events && ov == Overlay(db, base, e, STATEMENTS - 1)
    ensures BumpRollup(db, ov, e) == EventOverlay(db, base, e)
  {
    OverlayStep(db, base, e, STATEMENTS - 1, ov);
  }

  /** Between two events the overlay is that of the finished ones. */
  lemma BetweenEvents(db: Db, t: Tx, base: Db, e: Event)
    requires 0 < t.done <= |t.items| && t.pc == 0 && e == t.items[t.done - 1]
    requires base == Run(db, t.items[..t.done - 1]) && t.ov == EventOverlay(db, base, e)
    ensures InStep(db, t)
  {
    var n := t.done - 1;
    RunOneMore(db, t.items, n);
    assert t.ov == Run(db, t.items[..t.done]);
  }

  /** The rollup statement completes the event. */
  lemma LastStatementKeepsInStep(db: Db, t: Tx)
    requires InStep(db, t) && Ready(t) && t.pc == STATEMENTS - 1
    ensures InStep(db, RunStatement(db, t))
  {
    var base, e := Run(db, t.items[..t.done]), t.items[t.done];
    LastStatement(db, t);
    CompletesEvent(db, base, e, t.ov);
    BetweenEvents(db, RunStatement(db, t), base, e);
  }

  lemma DuplicateKeepsInStep(db: Db, t: Tx)
    requires InStep(db, t) && Ready(t) && t.pc == 0 && t.items[t.done].key in Merge(db, t.ov).events
    ensures InStep(db, RunStatement(db, t))
  {
    assert RunStatement(db, t) == t.(done := t.done + 1);
    BetweenEvents(db, t.(done := t.done + 1), t.ov, t.items[t.done]);
  }

  lemma StatementKeepsInStep(db: Db, t: Tx)
    requires InStep(db, t) && Ready(t)
    ensures InStep(db, RunStatement(db, t))
  {
    if t.pc == STATEMENTS - 1 {
      LastStatementKeepsInStep(db, t);
    } else if t.pc == 0 && t.items[t.done].key in Merge(db, t.ov).events {
      DuplicateKeepsInStep(db, t);
    } else {
      MidStatementKeepsInStep(db, t);
    }
  }

  lemma TriageIsMerge(db: Db, k: IssueKey, st: Status) returns (w: Db)
    requires k in db.issues
    ensures SetStatus(db, k, st) == Merge(db, w)
    ensures w.events == map[] && w.issues.Keys == {k} && w.userHashes == {} && w.rollups == map[]
  {
    w := EMPTY.(issues := map[k := db.issues[k].(status := st, substatus := "")]);
    assert db.issues + w.issues == db.issues[k := db.issues[k].(status := st, substatus := "")];
  }

  lemma CommitPublishes(init: Db, s: State, id: TxId, s': State)
    requires Inv(init, s) && NextBy(s, Commit(id), s')
    ensures s'.db == Replay(init, s'.log)
  {
    var t := s.txs[id];
    assert t.items[..t.done] == t.items && InStep(s.db, t);
    RunIsDeliver(s.db, t.items);
    assert s'.log[..|s'.log| - 1] == s.log;
  }

  lemma CommitKeepsInv(init: Db, s: State, id: TxId, s': State)
    requires Inv(init, s) && NextBy(s, Commit(id), s')
    ensures Inv(init, s')
  {
    CommitPublishes(init, s, id, s');
    forall j | j in s'.txs ensures InStep(s'.db, s'.txs[j]) {
      ForeignCommitKeepsInStep(s.db, s.txs[id].ov, s.txs[j]);
    }
  }

  lemma TriageKeepsInv(init: Db, s: State, k: IssueKey, st: Status, s': State)
    requires Inv(init, s) && NextBy(s, Triage(k, st), s')
    ensures Inv(init, s')
  {
    var w := TriageIsMerge(s.db, k, st);
    assert s'.log[..|s'.log| - 1] == s.log;
    forall j | j in s'.txs ensures InStep(s'.db, s'.txs[j]) {
      ForeignCommitKeepsInStep(s.db, w, s.txs[j]);
    }
  }

  lemma Replaced(init: Db, s: State, id: TxId, t: Tx)
    requires Inv(init, s) && InStep(s.db, t)
    requires forall j <- s.txs :: j != id ==> Disjoint(t.ov, s.txs[j].ov)
    ensures Inv(init, s.(txs := s.txs[id := t]))
  {
    var s' := s.(txs := s.txs[id := t]);
    forall i, j | i in s'.txs && j in s'.txs && i != j ensures Disjoint(s'.txs[i].ov, s'.txs[j].ov) {
      if i != id && j != id {
        assert Disjoint(s.txs[i].ov, s.txs[j].ov);
      }
    }
  }

  lemma ExecKeepsInv(init: Db, s: State, id: TxId, s': State)
    requires Inv(init, s) && NextBy(s, Exec(id), s')
    ensures Inv(init, s')
  {
    StatementKeepsInStep(s.db, s.txs[id]);
    Replaced(init, s, id, RunStatement(s.db, s.txs[id]));
  }

  lemma BeginKeepsInv(init: Db, s: State, id: TxId, items: seq<Event>, s': State)
    requires Inv(init, s) && NextBy(s, Begin(id, items), s')
    ensures Inv(init, s')
  {
    assert items[..0] == [];
    assert InStep(s.db, NewTx(items));
    Replaced(init, s, id, NewTx(items));
  }

  lemma StepKeepsInv(init: Db, s: State, step: Step, s': State)
    requires Inv(init, s) && NextBy(s, step, s')
    ensures Inv(init, s')
  {
    match step
    case Begin(id, items) => BeginKeepsInv(init, s, id, items, s');
    case Exec(id) => ExecKeepsInv(init, s, id, s');
    case Commit(id) => CommitKeepsInv(init, s, id, s');
    case Rollback(id) =>
    case Triage(k, st) => TriageKeepsInv(init, s, k, st, s');
  }

  lemma {:induction false} RunKeepsInv(init: Db, ss: seq<State>, i: nat)
    requires IsRun(init, ss) && i < |ss|
    ensures Inv(init, ss[i])
  {
    if i == 0 {
    } else {
      RunKeepsInv(init, ss, i - 1);
      assert Next(ss[i - 1], ss[i - 1 + 1]);
      var step :| NextBy(ss[i - 1], step, ss[i]);
      StepKeepsInv(init, ss[i - 1], step, ss[i]);
    }
  }

  // ---- main results ----

  /** Every interleaving commits what the same commits would do one after the other. */
  lemma CommitsAreSerial(init: Db, ss: seq<State>, i: nat)
    requires IsRun(init, ss) && i < |ss|
    ensures ss[i].db == Replay(init, ss[i].log)
  {
    RunKeepsInv(init, ss, i);
  }

  lemma {:induction false} ReplayKeepsDerived(init: Db, log: seq<Entry>)
    requires Derived(init)
    ensures Derived(Replay(init, log))
  {
    if log == [] {
    } else {
      ReplayKeepsDerived(init, log[..|log| - 1]);
      var before := Replay(init, log[..|log| - 1]);
      match log[|log| - 1]
      case Delivered(items, _) => DeliverKeepsDerived(before, items);
      case Triaged(k, st) => SetStatusKeepsDerived(before, k, st);
    }
  }

  /**
   In each committed state of every interleaving an issue's count is the sum of its hourly rollups and the
   number of its accepted events, its user count the number of its user rows, and every row belongs to an event.
   */
  lemma CommittedCountersAgree(init: Db, ss: seq<State>, i: nat)
    requires IsRun(init, ss) && i < |ss| && Derived(init)
    ensures Derived(ss[i].db)
    ensures forall k <- ss[i].db.issues ::
              && ss[i].db.issues[k].count == SumOver(ss[i].db.rollups, RollupsOf(ss[i].db, k)) ==
                  |EventsOf(ss[i].db, k)|
              && ss[i].db.issues[k].userCount == |UsersOf(ss[i].db, k)|
  {
    CommitsAreSerial(init, ss, i);
    ReplayKeepsDerived(init, ss[i].log);
    forall k | k in ss[i].db.issues
      ensures ss[i].db.issues[k].count == SumOver(ss[i].db.rollups, RollupsOf(ss[i].db, k)) == |EventsOf(ss[i].db, k)|
      ensures ss[i].db.issues[k].userCount == |UsersOf(ss[i].db, k)|
    {
      CountsAgree(ss[i].db, k);
    }
  }

  /** The events of the log in commit order. */
  function Deliveries(log: seq<Entry>): seq<Event> {
    if log == [] then [] else
    Deliveries(log[..|log| - 1]) + (if log[|log| - 1].Delivered? then log[|log| - 1].items else [])
  }

  lemma {:induction false} ReplayIsDeliver(init: Db, log: seq<Entry>)
    requires forall x :: x in log ==> x.Delivered?
    ensures Replay(init, log) == Deliver(init, Deliveries(log))
  {
    if log == [] {
    } else {
      ReplayIsDeliver(init, log[..|log| - 1]);
      DeliverConcat(init, Deliveries(log[..|log| - 1]), log[|log| - 1].items);
    }
  }

  ghost predicate SameEvents(es: seq<Event>, fs: seq<Event>) {
    forall e :: e in es <==> e in fs
  }

  /** Two interleavings that commit the same events, however split, ordered or repeated, agree on every counter. */
  lemma InterleavingIsForgotten(init: Db, ss: seq<State>, tt: seq<State>)
    requires Derived(init) && IsRun(init, ss) && IsRun(init, tt)
    requires forall x :: x in ss[|ss| - 1].log || x in tt[|tt| - 1].log ==> x.Delivered?
    requires Consistent(Deliveries(ss[|ss| - 1].log))
    requires SameEvents(Deliveries(ss[|ss| - 1].log), Deliveries(tt[|tt| - 1].log))
    ensures var a, b := ss[|ss| - 1].db, tt[|tt| - 1].db;
            && a.events == b.events && a.userHashes == b.userHashes && a.rollups == b.rollups
                && a.issues.Keys == b.issues.Keys
            && forall k <- a.issues :: SameStanding(a.issues[k], b.issues[k])
  {
    var l, m := ss[|ss| - 1].log, tt[|tt| - 1].log;
    CommitsAreSerial(init, ss, |ss| - 1);
    CommitsAreSerial(init, tt, |tt| - 1);
    ReplayIsDeliver(init, l);
    ReplayIsDeliver(init, m);
    OrderIsForgotten(init, Deliveries(l), Deliveries(m));
  }
}
