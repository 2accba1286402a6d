/** The alert signals of interleaved transactions, and how far IsNew and IsRegression tell what the upsert did. */
module IngestSignals {
  import opened Wrappers
  import opened IngestDb
  import opened IngestLaws
  import opened Interleaving

  // ---- alert signals ----

  predicate Announces(signals: seq<Signal>, k: IssueKey) {
    exists g :: g in signals && g.issue == k && g.created && g.isNew
  }

  predicate Announced(log: seq<Entry>, k: IssueKey) {
    exists x :: x in log && x.Delivered? && Announces(x.signals, k)
  }

  predicate Honest(signals: seq<Signal>) {
    forall g :: g in signals && g.created ==> g.isNew
  }

  ghost predicate TxSignals(db: Db, t: Tx) {
    && t.done <= |t.items| && t.pc < STATEMENTS && (t.pc > 0 ==> t.done < |t.items|)
    && Honest(t.signals)
    && (t.pc >= 2 && t.preRead.Some? ==> t.items[t.done].issue in Merge(db, t.ov).issues)
    && (t.pc >= 3 && t.created ==> t.preRead.None?)
    && (forall k <- t.ov.issues ::
          || k in db.issues
          || Announces(t.signals, k)
          || (t.pc >= 3 && t.created && k == t.items[t.done].issue))
  }

  ghost predicate SignalInv(init: Db, s: State) {
    && (forall i <- s.txs :: TxSignals(s.db, s.txs[i]))
    && (forall x :: x in s.log && x.Delivered? ==> Honest(x.signals))
    && (forall k <- s.db.issues :: k in init.issues || Announced(s.log, k))
  }

  /** Which issue rows a statement writes. */
  lemma StatementIssues(db: Db, ov: Db, e: Event, n: nat, isNew: bool)
    ensures Statement(db, ov, e, n, isNew).issues.Keys <= ov.issues.Keys + {e.issue}
    ensures n < 3 ==> Statement(db, ov, e, n, isNew).issues == ov.issues
    ensures n == 3 ==> e.issue in Statement(db, ov, e, n, isNew).issues
    ensures ov.issues.Keys <= Statement(db, ov, e, n, isNew).issues.Keys
    ensures n > 3 ==> forall k <- Statement(db, ov, e, n, isNew).issues :: k in ov.issues || k in db.issues
  {
  }

  lemma LastStatementKeepsTxSignals(db: Db, t: Tx)
    requires TxSignals(db, t) && Ready(t) && t.pc == STATEMENTS - 1
    ensures TxSignals(db, RunStatement(db, t))
  {
    var e, t' := t.items[t.done], RunStatement(db, t);
    var g := SignalOf(e, t);
    assert t'.signals == t.signals + [g];
    assert forall x :: x in t.signals ==> x in t'.signals;
    assert g in t'.signals;
    forall k | k in t'.ov.issues ensures k in db.issues || Announces(t'.signals, k) {
      assert k in t.ov.issues;
    }
  }

  lemma EffectKeepsTxSignals(db: Db, t: Tx, t': Tx)
    requires Ready(t) && t.pc < STATEMENTS - 1 && TxSignals(db, t) && MidEffect(db, t, t')
    ensures TxSignals(db, t')
  {
    StatementIssues(db, t.ov, t.items[t.done], t.pc + 1, t.newUser);
  }

  lemma StatementKeepsTxSignals(db: Db, t: Tx)
    requires TxSignals(db, t) && Ready(t)
    ensures TxSignals(db, RunStatement(db, t))
  {
    if t.pc == STATEMENTS - 1 {
      LastStatementKeepsTxSignals(db, t);
    } else if t.pc != 0 || t.items[t.done].key !in Merge(db, t.ov).events {
      MidStatement(db, t);
      EffectKeepsTxSignals(db, t, RunStatement(db, t));
    }
  }

  lemma MoreIssuesKeepTxSignals(db: Db, db': Db, t: Tx)
    requires TxSignals(db, t) && db.issues.Keys <= db'.issues.Keys
    ensures TxSignals(db', t)
  {
  }

  lemma LogGrows(log: seq<Entry>, x: Entry, k: IssueKey)
    requires Announced(log, k) || (x.Delivered? && Announces(x.signals, k))
    ensures Announced(log + [x], k)
  {
    var y: Entry :| (y in log || y == x) && y.Delivered? && Announces(y.signals, k);
    assert y in log + [x];
  }

  lemma StepKeepsSignalInv(init: Db, s: State, step: Step, s': State)
    requires SignalInv(init, s) && NextBy(s, step, s')
    ensures SignalInv(init, s')
  {
    if step.Exec? {
      StatementKeepsTxSignals(s.db, s.txs[step.id]);
    } else if step.Commit? || step.Triage? {
      var x := s'.log[|s.log|];
      assert s'.log == s.log + [x];
      forall j | j in s'.txs ensures TxSignals(s'.db, s'.txs[j]) {
        MoreIssuesKeepTxSignals(s.db, s'.db, s.txs[j]);
      }
      forall k | k in s'.db.issues ensures k in init.issues || Announced(s'.log, k) {
        if k !in init.issues {
          if step.Commit? && k !in s.db.issues {
            assert k in s.txs[step.id].ov.issues;
          }
          LogGrows(s.log, x, k);
        }
      }
    }
  }

  lemma {:induction false} RunKeepsSignalInv(init: Db, ss: seq<State>, i: nat)
    requires IsRun(init, ss) && i < |ss|
    ensures SignalInv(init, ss[i])
  {
    if i == 0 {
    } else {
      RunKeepsSignalInv(init, ss, i - 1);
      assert Next(ss[i - 1], ss[i - 1 + 1]);
      var step :| NextBy(ss[i - 1], step, ss[i]);
      StepKeepsSignalInv(init, ss[i - 1], step, ss[i]);
    }
  }

  /** Every issue row that was not there initially was created by a committed transaction that signalled IsNew. */
  lemma CreatorsSignalNew(init: Db, ss: seq<State>, i: nat)
    requires IsRun(init, ss) && i < |ss|
    ensures forall k <- ss[i].db.issues :: k in init.issues || Announced(ss[i].log, k)
    ensures forall x :: x in ss[i].log && x.Delivered? ==> Honest(x.signals)
  {
    RunKeepsSignalInv(init, ss, i);
  }

  // ---- when a signal tells what its upsert did ----

  /** The transaction has pre-read the issue and not yet upserted it. */
  predicate Between(t: Tx, k: IssueKey) { t.pc == 2 && t.done < |t.items| && t.items[t.done].issue == k }

  /** What a signal says of a status: whether there is a row and, if asked, whether it is resolved. */
  function View(status: bool, seen: Option<Status>): Option<Status> {
    if seen.None? then None else if status && seen == Some(Resolved) then Some(Resolved) else Some(Unresolved)
  }

  predicate Tells(g: Signal, status: bool) { g.isNew == g.created && (status ==> g.isRegression == g.regressed) }

  predicate SignalsTell(signals: seq<Signal>, k: IssueKey, status: bool) {
    forall g :: g in signals && g.issue == k ==> Tells(g, status)
  }

  /** Inside an event of the issue: the pre-read holds up to the upsert, which then does what it announced. */
  predicate EventTells(db: Db, t: Tx, status: bool)
    requires t.done < |t.items|
  {
    && (t.pc == 2 ==> View(status, t.preRead) == View(status, StatusIn(Merge(db, t.ov), t.items[t.done].issue)))
    && (t.pc >= 3 ==> Tells(SignalOf(t.items[t.done], t), status))
  }

  predicate TxTells(db: Db, t: Tx, k: IssueKey, status: bool) {
    && (t.pc > 0 ==> t.done < |t.items|)
    && SignalsTell(t.signals, k, status)
    && (t.pc > 0 && t.items[t.done].issue == k ==> EventTells(db, t, status))
  }

  predicate LogTells(log: seq<Entry>, k: IssueKey, status: bool) {
    forall x :: x in log && x.Delivered? ==> SignalsTell(x.signals, k, status)
  }

  predicate StateTells(s: State, k: IssueKey, status: bool) {
    (forall i :: i in s.txs ==> TxTells(s.db, s.txs[i], k, status)) && LogTells(s.log, k, status)
  }

  lemma LastStatementTells(db: Db, t: Tx, k: IssueKey, status: bool)
    requires Ready(t) && t.pc == STATEMENTS - 1 && TxTells(db, t, k, status)
    ensures TxTells(db, RunStatement(db, t), k, status)
  {
    var t' := RunStatement(db, t);
    assert t'.signals == t.signals + [SignalOf(t.items[t.done], t)];
  }

  lemma EffectTells(db: Db, t: Tx, t': Tx, k: IssueKey, status: bool)
    requires Ready(t) && t.pc < STATEMENTS - 1 && TxTells(db, t, k, status) && MidEffect(db, t, t')
    ensures TxTells(db, t', k, status)
  {
    StatementIssues(db, t.ov, t.items[t.done], t.pc + 1, t.newUser);
  }

  lemma StatementTells(db: Db, t: Tx, k: IssueKey, status: bool)
    requires Ready(t) && TxTells(db, t, k, status)
    ensures TxTells(db, RunStatement(db, t), k, status)
  {
    if t.pc == STATEMENTS - 1 {
      LastStatementTells(db, t, k, status);
    } else if t.pc != 0 || t.items[t.done].key !in Merge(db, t.ov).events {
      MidStatement(db, t);
      EffectTells(db, t, RunStatement(db, t), k, status);
    }
  }

  // ---- one transaction left alone ----

  function StatementsLeft(t: Tx): nat {
    if Ready(t) then (|t.items| - t.done) * STATEMENTS + STATEMENTS - t.pc else 0
  }

  lemma StatementsRunOut(db: Db, t: Tx)
    requires Ready(t)
    ensures var t' := RunStatement(db, t);
            t'.items == t.items && StatementsLeft(t') < StatementsLeft(t)
  {
    if t.pc == STATEMENTS - 1 {
      LastStatement(db, t);
    } else if t.pc != 0 || t.items[t.done].key !in Merge(db, t.ov).events {
      MidStatement(db, t);
    }
  }

  /** The transaction once it has run its remaining statements with no other at work. */
  function Completed(db: Db, t: Tx): Tx
    decreases StatementsLeft(t)
  {
    if !Ready(t) then t else
    StatementsRunOut(db, t);
    Completed(db, RunStatement(db, t))
  }

  lemma {:induction false} CompletedTells(db: Db, t: Tx, k: IssueKey, status: bool)
    requires TxTells(db, t, k, status)
    ensures SignalsTell(Completed(db, t).signals, k, status)
    decreases StatementsLeft(t)
  {
    if Ready(t) {
      StatementsRunOut(db, t);
      StatementTells(db, t, k, status);
      CompletedTells(db, RunStatement(db, t), k, status);
    }
  }

  lemma SignalsGrow(db: Db, t: Tx)
    requires Ready(t)
    ensures forall g :: g in t.signals ==> g in RunStatement(db, t).signals
  {
  }

  lemma {:induction false} CompletedKeepsSignals(db: Db, t: Tx, g: Signal)
    requires g in t.signals
    ensures g in Completed(db, t).signals
    decreases StatementsLeft(t)
  {
    if Ready(t) {
      StatementsRunOut(db, t);
      SignalsGrow(db, t);
      CompletedKeepsSignals(db, RunStatement(db, t), g);
    }
  }

  /** From its upsert on, an event's signal is settled. */
  lemma {:induction false} SignalIsSettled(db: Db, t: Tx)
    requires Ready(t) && t.pc >= 3
    ensures SignalOf(t.items[t.done], t) in Completed(db, t).signals
    decreases StatementsLeft(t)
  {
    var t' := RunStatement(db, t);
    StatementsRunOut(db, t);
    if t.pc == STATEMENTS - 1 {
      assert t'.signals == t.signals + [SignalOf(t.items[t.done], t)];
      CompletedKeepsSignals(db, t', SignalOf(t.items[t.done], t));
    } else {
      MidStatement(db, t);
      SignalIsSettled(db, t');
    }
  }

  lemma ViewsAgreeExactlyWhen(a: Option<Status>, b: Option<Status>, status: bool)
    ensures View(status, a) == View(status, b) <==>
              (a.None? <==> b.None?) && (status ==> (a == Some(Resolved) <==> b == Some(Resolved)))
  {
  }

  /** A pre-read that no longer holds misleads the signal. */
  lemma {:induction false} StaleReadMisleads(db: Db, t: Tx, k: IssueKey, status: bool)
    requires Between(t, k) && SignalsTell(Completed(db, t).signals, k, status)
    ensures View(status, t.preRead) == View(status, StatusIn(Merge(db, t.ov), k))
  {
    var t' := RunStatement(db, t);
    MidStatement(db, t);
    StatementsRunOut(db, t);
    SignalIsSettled(db, t');
    assert Completed(db, t) == Completed(db, t');
    ViewsAgreeExactlyWhen(t.preRead, StatusIn(Merge(db, t.ov), k), status);
  }

  /** Nobody has logged a wrong signal, and no active transaction would if it were left alone now. */
  ghost predicate AllTell(s: State, k: IssueKey, status: bool) {
    && LogTells(s.log, k, status)
    && forall j :: j in s.txs ==> SignalsTell(Completed(s.db, s.txs[j]).signals, k, status)
  }

  // ---- left alone, a transaction does commit that ----

  predicate WellFormed(t: Tx) { t.done <= |t.items| && t.pc < STATEMENTS && (t.pc > 0 ==> t.done < |t.items|) }

  lemma StatementKeepsWellFormed(db: Db, t: Tx)
    requires Ready(t) && WellFormed(t)
    ensures WellFormed(RunStatement(db, t))
  {
  }

  lemma Extended(init: Db, ss: seq<State>, s: State)
    requires IsRun(init, ss) && Next(ss[|ss| - 1], s)
    ensures IsRun(init, ss + [s])
  {
    var r := ss + [s];
    forall i | 0 <= i < |r| - 1 ensures Next(r[i], r[i + 1]) {
      assert i < |ss| - 1 ==> Next(ss[i], ss[i + 1]);
    }
  }

  ghost function Extend(init: Db, ss: seq<State>, s: State): (r: seq<State>)
    requires IsRun(init, ss) && Next(ss[|ss| - 1], s)
    ensures IsRun(init, r) && r[|r| - 1] == s && ss <= r
  {
    Extended(init, ss, s);
    ss + [s]
  }

  lemma {:induction false} OthersRollBack(init: Db, ss: seq<State>, id: TxId) returns (tt: seq<State>)
    requires IsRun(init, ss) && id in ss[|ss| - 1].txs
    ensures IsRun(init, tt) && ss <= tt
    ensures var s := ss[|ss| - 1]; tt[|tt| - 1] == s.(txs := map[id := s.txs[id]])
    decreases |ss[|ss| - 1].txs|
  {
    var s := ss[|ss| - 1];
    if s.txs.Keys == {id} {
      tt := ss;
      assert s.txs == map[id := s.txs[id]];
    } else {
      var j :| j in s.txs && j != id;
      var s' := s.(txs := s.txs - {j});
      assert NextBy(s, Rollback(j), s');
      assert s.txs.Keys == s'.txs.Keys + {j};
      tt := OthersRollBack(init, Extend(init, ss, s'), id);
    }
  }

  lemma {:induction false} RunsToItsEnd(init: Db, ss: seq<State>, id: TxId, t: Tx) returns (tt: seq<State>)
    requires IsRun(init, ss) && ss[|ss| - 1].txs == map[id := t] && WellFormed(t)
    ensures IsRun(init, tt) && ss <= tt
    ensures var s, end := ss[|ss| - 1], Completed(ss[|ss| - 1].db, t);
            end.items == t.items && Finished(end) && tt[|tt| - 1] == s.(txs := map[id := end])
    decreases StatementsLeft(t)
  {
    var s := ss[|ss| - 1];
    if !Ready(t) {
      tt := ss;
    } else {
      var t' := RunStatement(s.db, t);
      var s' := s.(txs := map[id := t']);
      StatementsRunOut(s.db, t);
      StatementKeepsWellFormed(s.db, t);
      assert s'.txs == s.txs[id := t'];
      assert NextBy(s, Exec(id), s');
      tt := RunsToItsEnd(init, Extend(init, ss, s'), id, t');
    }
  }

  /** Every run goes on to one in which only this transaction commits, with the signals of its completion. */
  lemma CompletionIsCommitted(init: Db, ss: seq<State>, id: TxId) returns (tt: seq<State>)
    requires IsRun(init, ss) && id in ss[|ss| - 1].txs
    ensures IsRun(init, tt) && ss <= tt
    ensures var s := ss[|ss| - 1];
            tt[|tt| - 1].log == s.log + [Delivered(s.txs[id].items, Completed(s.db, s.txs[id]).signals)]
  {
    var s := ss[|ss| - 1];
    RunKeepsSignalInv(init, ss, |ss| - 1);
    assert TxSignals(s.db, s.txs[id]);
    tt := OthersRollBack(init, ss, id);
    tt := RunsToItsEnd(init, tt, id, s.txs[id]);
    var last := tt[|tt| - 1];
    var entry := Delivered(last.txs[id].items, last.txs[id].signals);
    var end := State(Merge(last.db, last.txs[id].ov), last.txs - {id}, last.log + [entry]);
    assert NextBy(last, Commit(id), end);
    tt := Extend(init, tt, end);
  }

  // ---- the exact condition ----

  /** The committed row changes under a transaction that is between its pre-read and its upsert. */
  predicate Disturbs(s: State, s': State, k: IssueKey, status: bool) {
    && View(status, StatusIn(s.db, k)) != View(status, StatusIn(s'.db, k))
    && exists j :: j in s.txs && Between(s.txs[j], k)
  }

  predicate Undisturbed(ss: seq<State>, n: nat, k: IssueKey, status: bool)
    requires n < |ss|
  {
    forall i :: 0 < i <= n ==> !Disturbs(ss[i - 1], ss[i], k, status)
  }

  lemma OwnRowHides(db: Db, db': Db, ov: Db, k: IssueKey)
    ensures StatusIn(Merge(db, ov), k) == if k in ov.issues then StatusIn(ov, k) else StatusIn(db, k)
  {
  }

  /** A change that leaves the row's view alone, or comes at no critical moment, misleads nobody. */
  lemma ChangeTells(db: Db, db': Db, t: Tx, k: IssueKey, status: bool)
    requires TxTells(db, t, k, status)
    requires Between(t, k) ==> View(status, StatusIn(db, k)) == View(status, StatusIn(db', k))
    ensures TxTells(db', t, k, status)
  {
    OwnRowHides(db, db, t.ov, k);
    OwnRowHides(db', db', t.ov, k);
  }

  lemma StepTells(s: State, step: Step, s': State, k: IssueKey, status: bool)
    requires NextBy(s, step, s') && StateTells(s, k, status) && !Disturbs(s, s', k, status)
    ensures StateTells(s', k, status)
  {
    match step
    case Exec(id) => StatementTells(s.db, s.txs[id], k, status);
    case Commit(id) =>
      forall j | j in s'.txs ensures TxTells(s'.db, s'.txs[j], k, status) {
        ChangeTells(s.db, s'.db, s.txs[j], k, status);
      }
    case Triage(i, st) =>
      forall j | j in s'.txs ensures TxTells(s'.db, s'.txs[j], k, status) {
        ChangeTells(s.db, s'.db, s.txs[j], k, status);
      }
    case _ =>
  }

  lemma {:induction false} RunTells(init: Db, ss: seq<State>, n: nat, k: IssueKey, status: bool)
    requires IsRun(init, ss) && n < |ss| && Undisturbed(ss, n, k, status)
    ensures StateTells(ss[n], k, status)
  {
    if n == 0 {
    } else {
      RunTells(init, ss, n - 1, k, status);
      assert Next(ss[n - 1], ss[n - 1 + 1]);
      var step :| NextBy(ss[n - 1], step, ss[n]);
      assert !Disturbs(ss[n - 1], ss[n], k, status);
      StepTells(ss[n - 1], step, ss[n], k, status);
    }
  }

  lemma TellingStates(s: State, k: IssueKey, status: bool)
    requires StateTells(s, k, status)
    ensures AllTell(s, k, status)
  {
    forall j | j in s.txs ensures SignalsTell(Completed(s.db, s.txs[j]).signals, k, status) {
      CompletedTells(s.db, s.txs[j], k, status);
    }
  }

  /** A commit that changes the row wrote it, so a transaction that goes on has no row of its own there. */
  lemma CommittedRowIsNotOwn(t: Tx, u: Tx, db: Db, k: IssueKey)
    requires Disjoint(t.ov, u.ov) && StatusIn(db, k) != StatusIn(Merge(db, t.ov), k)
    ensures k !in u.ov.issues
  {
    OwnRowHides(db, db, t.ov, k);
  }

  predicate Exclusive(s: State) {
    forall i, j :: i in s.txs && j in s.txs && i != j ==> Disjoint(s.txs[i].ov, s.txs[j].ov)
  }

  /** Nor has it after a triage of the row. */
  lemma ChangedRowIsNotOwn(s: State, step: Step, s': State, k: IssueKey, j: TxId)
    requires Exclusive(s) && NextBy(s, step, s') && StatusIn(s.db, k) != StatusIn(s'.db, k)
    requires j in s.txs && Between(s.txs[j], k)
    ensures j in s'.txs && s'.txs[j] == s.txs[j] && k !in s.txs[j].ov.issues
  {
    match step
    case Commit(id) =>
      assert id != j;
      assert Disjoint(s.txs[id].ov, s.txs[j].ov);
      CommittedRowIsNotOwn(s.txs[id], s.txs[j], s.db, k);
    case Triage(i, st) => assert i == k;
    case _ =>
  }

  /** After such a disturbance the transaction would commit a wrong signal. */
  lemma DisturbanceMisleads(s: State, step: Step, s': State, k: IssueKey, status: bool)
    requires Exclusive(s) && NextBy(s, step, s') && Disturbs(s, s', k, status)
    ensures !(AllTell(s, k, status) && AllTell(s', k, status))
  {
    var j :| j in s.txs && Between(s.txs[j], k);
    ChangedRowIsNotOwn(s, step, s', k, j);
    OwnRowHides(s.db, s.db, s.txs[j].ov, k);
    OwnRowHides(s'.db, s'.db, s.txs[j].ov, k);
    if AllTell(s, k, status) && AllTell(s', k, status) {
      StaleReadMisleads(s.db, s.txs[j], k, status);
      StaleReadMisleads(s'.db, s'.txs[j], k, status);
    }
  }

  /**
   For every run and every issue: at no moment has a wrong signal been logged, or would an active transaction that is
   left alone log one, exactly when no commit or triage changes what the pre-read looks at (whether the row exists and,
   with `status`, whether it is resolved) while a transaction is between pre-read and upsert.
   */
  lemma SignalsTellExactlyWhen(init: Db, ss: seq<State>, k: IssueKey, status: bool)
    requires IsRun(init, ss)
    ensures (forall n :: 0 <= n < |ss| ==> AllTell(ss[n], k, status)) <==> Undisturbed(ss, |ss| - 1, k, status)
  {
    if Undisturbed(ss, |ss| - 1, k, status) {
      forall n | 0 <= n < |ss| ensures AllTell(ss[n], k, status) {
        RunTells(init, ss, n, k, status);
        TellingStates(ss[n], k, status);
      }
    }
    if forall n :: 0 <= n < |ss| ==> AllTell(ss[n], k, status) {
      forall i | 0 < i <= |ss| - 1 ensures !Disturbs(ss[i - 1], ss[i], k, status) {
        RunKeepsInv(init, ss, i - 1);
        assert Next(ss[i - 1], ss[i - 1 + 1]);
        var step :| NextBy(ss[i - 1], step, ss[i]);
        if Disturbs(ss[i - 1], ss[i], k, status) {
          DisturbanceMisleads(ss[i - 1], step, ss[i], k, status);
        }
      }
    }
  }

  // ---- schedules that meet it ----

  predicate Carries(t: Tx, k: IssueKey) { exists e :: e in t.items && e.issue == k }

  /** At most one active transaction carries events of the issue. */
  predicate Alone(s: State, k: IssueKey) {
    forall i, j :: i in s.txs && j in s.txs && Carries(s.txs[i], k) && Carries(s.txs[j], k) ==> i == j
  }

  predicate NobodyBetween(s: State, k: IssueKey) { forall j :: j in s.txs ==> !Between(s.txs[j], k) }

  /** The issue is triaged between these states. */
  predicate TriagedNext(s: State, s': State, k: IssueKey) {
    |s'.log| > |s.log| && s'.log[|s.log|].Triaged? && s'.log[|s.log|].issue == k
  }

  /** A commit is the serial delivery of its events: it touches an issue it carries, and flips it only from resolved. */
  lemma CommitChanges(init: Db, s: State, id: TxId, s': State, k: IssueKey)
    requires Inv(init, s) && NextBy(s, Commit(id), s')
    ensures StatusIn(s'.db, k) != StatusIn(s.db, k) ==> Carries(s.txs[id], k)
    ensures StatusIn(s.db, k).Some? && StatusIn(s.db, k) != Some(Resolved) ==> StatusIn(s'.db, k) == StatusIn(s.db, k)
    ensures StatusIn(s.db, k).Some? ==> StatusIn(s'.db, k).Some?
  {
    var t := s.txs[id];
    assert t.items[..t.done] == t.items && InStep(s.db, t);
    RunIsDeliver(s.db, t.items);
    DeliveryChanges(s.db, t.items, k);
  }

  lemma {:induction false} DeliveryChanges(db: Db, es: seq<Event>, k: IssueKey)
    ensures (forall e :: e in es ==> e.issue != k) ==> StatusIn(Deliver(db, es), k) == StatusIn(db, k)
    ensures StatusIn(db, k).Some? && StatusIn(db, k) != Some(Resolved) ==>
              StatusIn(Deliver(db, es), k) == StatusIn(db, k)
    ensures StatusIn(db, k).Some? ==> StatusIn(Deliver(db, es), k).Some?
  {
    if es == [] {
    } else {
      assert es[|es| - 1] in es && forall e :: e in es[..|es| - 1] ==> e in es;
      DeliveryChanges(db, es[..|es| - 1], k);
    }
  }

  /** Where commits can change the view they are alone, and triage waits: nothing is disturbed. */
  lemma AloneIsUndisturbed(init: Db, s: State, step: Step, s': State, k: IssueKey, status: bool)
    requires Inv(init, s) && NextBy(s, step, s')
    requires k !in s.db.issues || (status && StatusIn(s.db, k) == Some(Resolved)) ==> Alone(s, k)
    requires status && TriagedNext(s, s', k) ==> NobodyBetween(s, k)
    ensures !Disturbs(s, s', k, status)
  {
    if step.Commit? {
      CommitChanges(init, s, step.id, s', k);
      forall j | j in s.txs && Between(s.txs[j], k) ensures Carries(s.txs[j], k) && j != step.id {
        assert s.txs[j].items[s.txs[j].done] in s.txs[j].items;
      }
    } else if step.Triage? {
      assert s'.log[|s.log|] == Triaged(step.issue, step.status);
    }
  }

  /**
   As long as no two transactions that carry events of an issue are active at once before its row is committed,
   an event signals IsNew exactly when it created the row.
   */
  lemma AloneSignalsNewExactly(init: Db, ss: seq<State>, k: IssueKey)
    requires IsRun(init, ss)
    requires forall i :: 0 <= i < |ss| && k !in ss[i].db.issues ==> Alone(ss[i], k)
    ensures forall x, g :: x in ss[|ss| - 1].log && x.Delivered? && g in x.signals && g.issue == k ==>
            g.isNew == g.created
  {
    forall i | 0 < i <= |ss| - 1 ensures !Disturbs(ss[i - 1], ss[i], k, false) {
      RunKeepsInv(init, ss, i - 1);
      assert Next(ss[i - 1], ss[i - 1 + 1]);
      var step :| NextBy(ss[i - 1], step, ss[i]);
      AloneIsUndisturbed(init, ss[i - 1], step, ss[i], k, false);
    }
    RunTells(init, ss, |ss| - 1, k, false);
  }

  /**
   As long as such transactions exclude each other while the row is missing or resolved, and the issue is only triaged
   while none is between its pre-read and its upsert, an event signals IsRegression exactly when it flipped the row
   from resolved, and IsNew exactly when it created it.
   */
  lemma AloneSignalsRegressionExactly(init: Db, ss: seq<State>, k: IssueKey)
    requires IsRun(init, ss)
    requires forall i :: 0 <= i < |ss| && (k !in ss[i].db.issues || StatusIn(ss[i].db, k) == Some(Resolved)) ==>
               Alone(ss[i], k)
    requires forall i :: 0 < i < |ss| && TriagedNext(ss[i - 1], ss[i], k) ==> NobodyBetween(ss[i - 1], k)
    ensures forall x, g :: x in ss[|ss| - 1].log && x.Delivered? && g in x.signals && g.issue == k ==>
              g.isNew == g.created && g.isRegression == g.regressed
  {
    forall i | 0 < i <= |ss| - 1 ensures !Disturbs(ss[i - 1], ss[i], k, true) {
      RunKeepsInv(init, ss, i - 1);
      assert Next(ss[i - 1], ss[i - 1 + 1]);
      var step :| NextBy(ss[i - 1], step, ss[i]);
      AloneIsUndisturbed(init, ss[i - 1], step, ss[i], k, true);
    }
    RunTells(init, ss, |ss| - 1, k, true);
  }

  // ---- without those conditions signals can be wrong: the status pre-read takes no lock ----

  /** What one event finds: the status at its pre-read, and what its upsert does. */
  datatype Seen = Seen(status: Option<Status>, created: bool, regressed: bool)

  function Signalled(e: Event, seen: Seen): Signal {
    Signal(e.issue, e.key, seen.status.None?, seen.status == Some(Resolved), seen.created, seen.regressed)
  }

  function TxWith(e: Event, pc: nat, ov: Db, seen: Seen): Tx {
    Tx([e], if pc == STATEMENTS then 1 else 0, pc % STATEMENTS, ov, if pc >= 2 then seen.status else None, false,
       pc >= 3 && seen.created, pc >= 3 && seen.regressed, if pc == STATEMENTS then [Signalled(e, seen)] else [])
  }

  /** A transaction of the single anonymous event `e` after `pc` statements. */
  function TxAt(db: Db, e: Event, pc: nat, seen: Seen): Tx { TxWith(e, pc, Overlay(db, EMPTY, e, pc), seen) }

  /** What the event sees is what the tables hold when it looks. */
  predicate SeesAt(db: Db, e: Event, pc: nat, seen: Seen) {
    && (pc == 1 ==> seen.status == StatusIn(db, e.issue))
    && (pc == 2 ==> seen.created == (e.issue !in db.issues))
    && (pc == 2 ==> seen.regressed == (StatusIn(db, e.issue) == Some(Resolved)))
  }

  lemma UntouchedIssues(db: Db, e: Event, pc: nat)
    requires pc <= 2
    ensures Merge(db, Overlay(db, EMPTY, e, pc)).issues == db.issues
    ensures pc == 0 ==> Merge(db, Overlay(db, EMPTY, e, pc)).events == db.events
  {
    OverlayStep(db, EMPTY, e, 0, EMPTY);
    OverlayStep(db, EMPTY, e, 1, InsertEvent(EMPTY, e));
    assert db.issues + map[] == db.issues && db.events + map[] == db.events;
  }

  lemma AnonymousStaysAnonymous(db: Db, t: Tx)
    requires Ready(t) && t.items[t.done].user == "" && !t.newUser
    ensures !RunStatement(db, t).newUser
  {
  }

  lemma EffectAdvances(db: Db, e: Event, pc: nat, ov: Db, seen: Seen, t': Tx)
    requires pc < STATEMENTS - 1 && SeesAt(db, e, pc, seen) && MidEffect(db, TxWith(e, pc, ov, seen), t') && !t'.newUser
    requires pc <= 2 ==> StatusIn(Merge(db, ov), e.issue) == StatusIn(db, e.issue)
    ensures t' == TxWith(e, pc + 1, Statement(db, ov, e, pc + 1, false), seen)
  {
  }

  lemma AdvancesMid(db: Db, e: Event, pc: nat, seen: Seen)
    requires e.user == "" && pc < STATEMENTS - 1 && e.key !in db.events && SeesAt(db, e, pc, seen)
    ensures RunStatement(db, TxAt(db, e, pc, seen)) == TxAt(db, e, pc + 1, seen)
  {
    var t := TxAt(db, e, pc, seen);
    if pc <= 2 {
      UntouchedIssues(db, e, pc);
    }
    MidStatement(db, t);
    AnonymousStaysAnonymous(db, t);
    EffectAdvances(db, e, pc, t.ov, seen, RunStatement(db, t));
    OverlayStep(db, EMPTY, e, pc, t.ov);
  }

  lemma AdvancesLast(db: Db, e: Event, seen: Seen)
    ensures RunStatement(db, TxAt(db, e, STATEMENTS - 1, seen)) == TxAt(db, e, STATEMENTS, seen)
  {
    var t := TxAt(db, e, STATEMENTS - 1, seen);
    OverlayStep(db, EMPTY, e, STATEMENTS - 1, t.ov);
    assert t.signals + [SignalOf(e, t)] == [Signalled(e, seen)];
  }

  lemma TxAdvances(db: Db, e: Event, pc: nat, seen: Seen)
    requires e.user == "" && pc < STATEMENTS && e.key !in db.events && SeesAt(db, e, pc, seen)
    ensures RunStatement(db, TxAt(db, e, pc, seen)) == TxAt(db, e, pc + 1, seen)
  {
    if pc == STATEMENTS - 1 {
      AdvancesLast(db, e, seen);
    } else {
      AdvancesMid(db, e, pc, seen);
    }
  }

  // ---- one transaction with no other at work ----

  function Lone(db: Db, id: TxId, e: Event, pc: nat, seen: Seen, log: seq<Entry>): State {
    State(db, map[id := TxAt(db, e, pc, seen)], log)
  }

  lemma LoneStep(db: Db, id: TxId, e: Event, pc: nat, seen: Seen, log: seq<Entry>)
    requires e.user == "" && pc < STATEMENTS && e.key !in db.events && SeesAt(db, e, pc, seen)
    ensures Next(Lone(db, id, e, pc, seen, log), Lone(db, id, e, pc + 1, seen, log))
  {
    var s, s' := Lone(db, id, e, pc, seen, log), Lone(db, id, e, pc + 1, seen, log);
    TxAdvances(db, e, pc, seen);
    assert s'.txs == s.txs[id := TxAt(db, e, pc + 1, seen)];
    assert NextBy(s, Exec(id), s');
  }

  /** From its upsert on, a lone transaction runs to its commit. */
  lemma FinishesAlone(init: Db, before: seq<State>, db: Db, id: TxId, e: Event, seen: Seen, log: seq<Entry>)
      returns (ss: seq<State>)
    requires IsRun(init, before) && before[|before| - 1] == Lone(db, id, e, 2, seen, log)
    requires e.user == "" && e.key !in db.events && SeesAt(db, e, 2, seen)
    ensures IsRun(init, ss)
    ensures ss[|ss| - 1] == State(ApplyEvent(db, e), map[], log + [Delivered([e], [Signalled(e, seen)])])
  {
    ss := before;
    var pc := 2;
    while pc < STATEMENTS
      invariant 2 <= pc <= STATEMENTS && IsRun(init, ss) && ss[|ss| - 1] == Lone(db, id, e, pc, seen, log)
    {
      LoneStep(db, id, e, pc, seen, log);
      ss, pc := Extend(init, ss, Lone(db, id, e, pc + 1, seen, log)), pc + 1;
    }
    ss := Extend(init, ss, Committed(db, id, e, seen, log));
  }

  lemma WholeEvent(db: Db, e: Event)
    requires e.key !in db.events
    ensures Merge(db, Overlay(db, EMPTY, e, STATEMENTS)) == ApplyEvent(db, e)
  {
    assert Merge(db, EMPTY) == db;
    EventOverlayIsApply(db, EMPTY, e);
  }

  ghost function Committed(db: Db, id: TxId, e: Event, seen: Seen, log: seq<Entry>): (end: State)
    requires e.key !in db.events
    ensures end == State(ApplyEvent(db, e), map[], log + [Delivered([e], [Signalled(e, seen)])])
    ensures Next(Lone(db, id, e, STATEMENTS, seen, log), end)
  {
    var last, end := Lone(db, id, e, STATEMENTS, seen, log),
      State(ApplyEvent(db, e), map[], log + [Delivered([e], [Signalled(e, seen)])]);
    WholeEvent(db, e);
    assert end.txs == last.txs - {id};
    assert NextBy(last, Commit(id), end);
    end
  }

  // ---- two transactions that pre-read one status ----

  /** Transaction 1 after `p` statements of `a` and transaction 2 after `q` statements of `b`. */
  function Both(db: Db, a: Event, p: nat, first: Seen, b: Event, q: nat, second: Seen): State {
    Two(db, TxAt(db, a, p, first), TxAt(db, b, q, second))
  }

  /** Two anonymous events of one issue, new to the tables, that find the same status; the first upserts first. */
  predicate Race(db: Db, a: Event, first: Seen, b: Event, second: Seen) {
    && a.user == "" && b.user == "" && a.issue == b.issue && a.key != b.key
    && a.key !in db.events && b.key !in db.events
    && first.status == second.status == StatusIn(db, a.issue)
    && SeesAt(db, a, 2, first) && SeesAt(ApplyEvent(db, a), b, 2, second)
  }

  /** An event's statements write no event row but its own and, in the first two, nothing else. */
  lemma {:induction false} FootprintOf(db: Db, e: Event, pc: nat)
    ensures Overlay(db, EMPTY, e, pc).events.Keys <= {e.key}
    ensures pc <= 2 ==> var o := Overlay(db, EMPTY, e, pc);
            o.issues == map[] && o.userHashes == {} && o.rollups == map[]
  {
    if pc == 0 {
    } else {
      FootprintOf(db, e, pc - 1);
    }
  }

  lemma FootprintsDiffer(db: Db, a: Event, p: nat, b: Event, q: nat)
    requires a.key != b.key && q <= 2
    ensures Disjoint(Overlay(db, EMPTY, a, p), Overlay(db, EMPTY, b, q))
    ensures Disjoint(Overlay(db, EMPTY, b, q), Overlay(db, EMPTY, a, p))
  {
    FootprintOf(db, a, p);
    FootprintOf(db, b, q);
  }

  function Two(db: Db, t: Tx, u: Tx): State { State(db, map[1 := t, 2 := u], []) }

  lemma FirstExecutes(db: Db, t: Tx, t': Tx, u: Tx)
    requires Ready(t) && t' == RunStatement(db, t) && Disjoint(t'.ov, u.ov)
    ensures Next(Two(db, t, u), Two(db, t', u))
  {
    assert Two(db, t', u).txs == Two(db, t, u).txs[1 := t'];
    assert NextBy(Two(db, t, u), Exec(1), Two(db, t', u));
  }

  lemma SecondExecutes(db: Db, t: Tx, u: Tx, u': Tx)
    requires Ready(u) && u' == RunStatement(db, u) && Disjoint(u'.ov, t.ov)
    ensures Next(Two(db, t, u), Two(db, t, u'))
  {
    assert Two(db, t, u').txs == Two(db, t, u).txs[2 := u'];
    assert NextBy(Two(db, t, u), Exec(2), Two(db, t, u'));
  }

  lemma FirstStep(db: Db, a: Event, p: nat, first: Seen, b: Event, second: Seen)
    requires Race(db, a, first, b, second) && p < STATEMENTS
    ensures Next(Both(db, a, p, first, b, 2, second), Both(db, a, p + 1, first, b, 2, second))
  {
    TxAdvances(db, a, p, first);
    FootprintsDiffer(db, a, p + 1, b, 2);
    FirstExecutes(db, TxAt(db, a, p, first), TxAt(db, a, p + 1, first), TxAt(db, b, 2, second));
  }

  lemma SecondStep(db: Db, a: Event, first: Seen, b: Event, q: nat, second: Seen)
    requires Race(db, a, first, b, second) && q < 2
    ensures Next(Both(db, a, 0, first, b, q, second), Both(db, a, 0, first, b, q + 1, second))
  {
    TxAdvances(db, b, q, second);
    FootprintsDiffer(db, a, 0, b, q + 1);
    SecondExecutes(db, TxAt(db, a, 0, first), TxAt(db, b, q, second), TxAt(db, b, q + 1, second));
  }

  /** The pre-read overlay does not depend on the committed rows. */
  lemma SameEarlyOverlay(db: Db, db': Db, e: Event)
    ensures Overlay(db, EMPTY, e, 2) == Overlay(db', EMPTY, e, 2)
  {
    OverlayStep(db, EMPTY, e, 0, EMPTY);
    OverlayStep(db, EMPTY, e, 1, InsertEvent(EMPTY, e));
    OverlayStep(db', EMPTY, e, 0, EMPTY);
    OverlayStep(db', EMPTY, e, 1, InsertEvent(EMPTY, e));
  }

  /** Transaction 2 as it stands once transaction 1 is committed. */
  function OnlySecond(db: Db, a: Event, first: Seen, b: Event, second: Seen): State {
    Lone(ApplyEvent(db, a), 2, b, 2, second, [Delivered([a], [Signalled(a, first)])])
  }

  lemma SecondIsUntouched(db: Db, a: Event, first: Seen, b: Event, second: Seen)
    ensures Both(db, a, STATEMENTS, first, b, 2, second).txs - {1} == OnlySecond(db, a, first, b, second).txs
  {
    SameEarlyOverlay(db, ApplyEvent(db, a), b);
    assert TxAt(db, b, 2, second) == TxAt(ApplyEvent(db, a), b, 2, second);
  }

  lemma HandOver(db: Db, a: Event, first: Seen, b: Event, second: Seen)
    requires a.key !in db.events
    ensures Next(Both(db, a, STATEMENTS, first, b, 2, second), OnlySecond(db, a, first, b, second))
  {
    var s, s' := Both(db, a, STATEMENTS, first, b, 2, second), OnlySecond(db, a, first, b, second);
    WholeEvent(db, a);
    SecondIsUntouched(db, a, first, b, second);
    assert s'.log == s.log + [Delivered([a], [Signalled(a, first)])];
    assert NextBy(s, Commit(1), s');
  }

  lemma UntilBothHaveRead(init: Db, a: Event, first: Seen, b: Event, second: Seen) returns (ss: seq<State>)
    requires Race(init, a, first, b, second)
    ensures IsRun(init, ss) && ss[|ss| - 1] == Both(init, a, 0, first, b, 2, second)
  {
    var s0, s1 := State(init, map[], []), State(init, map[1 := NewTx([a])], []);
    var s2 := Both(init, a, 0, first, b, 0, second);
    assert NextBy(s0, Begin(1, [a]), s1);
    assert s2.txs == s1.txs[2 := NewTx([b])];
    assert NextBy(s1, Begin(2, [b]), s2);
    SecondStep(init, a, first, b, 0, second);
    SecondStep(init, a, first, b, 1, second);
    ss := [s0, s1, s2, Both(init, a, 0, first, b, 1, second), Both(init, a, 0, first, b, 2, second)];
  }

  lemma {:induction false} FirstGoesOn(init: Db, ss: seq<State>, a: Event, p: nat, first: Seen, b: Event, second: Seen)
      returns (tt: seq<State>)
    requires Race(init, a, first, b, second) && p <= STATEMENTS
    requires IsRun(init, ss) && ss[|ss| - 1] == Both(init, a, p, first, b, 2, second)
    ensures IsRun(init, tt) && tt[|tt| - 1] == Both(init, a, STATEMENTS, first, b, 2, second)
    decreases STATEMENTS - p
  {
    if p == STATEMENTS {
      tt := ss;
    } else {
      FirstStep(init, a, p, first, b, second);
      tt := FirstGoesOn(init, Extend(init, ss, Both(init, a, p + 1, first, b, 2, second)), a, p + 1, first, b, second);
    }
  }

  lemma UntilFirstIsDone(init: Db, a: Event, first: Seen, b: Event, second: Seen) returns (ss: seq<State>)
    requires Race(init, a, first, b, second)
    ensures IsRun(init, ss) && ss[|ss| - 1] == Both(init, a, STATEMENTS, first, b, 2, second)
  {
    ss := UntilBothHaveRead(init, a, first, b, second);
    ss := FirstGoesOn(init, ss, a, 0, first, b, second);
  }

  /** Both pre-read, then the first runs to its commit, then the second. */
  lemma BothSignal(init: Db, a: Event, first: Seen, b: Event, second: Seen) returns (ss: seq<State>)
    requires Race(init, a, first, b, second)
    ensures IsRun(init, ss)
    ensures ss[|ss| - 1].log == [Delivered([a], [Signalled(a, first)]), Delivered([b], [Signalled(b, second)])]
  {
    ss := UntilFirstIsDone(init, a, first, b, second);
    HandOver(init, a, first, b, second);
    ss := Extend(init, ss, OnlySecond(init, a, first, b, second));
    ss := FinishesAlone(init, ss, ApplyEvent(init, a), 2, b, second, [Delivered([a], [Signalled(a, first)])]);
  }

  /**
   Two first events of one issue that pre-read its status before either commits both signal IsNew,
   though only one of them created the row.
   */
  lemma TwoTransactionsSignalNew(a: Event, b: Event) returns (ss: seq<State>)
    requires a.user == "" && b.user == "" && a.issue == b.issue && a.key != b.key
    ensures IsRun(EMPTY, ss)
    ensures ss[|ss| - 1].log == [Delivered([a], [Signal(a.issue, a.key, true, false, true, false)]),
                                 Delivered([b], [Signal(b.issue, b.key, true, false, false, false)])]
  {
    ss := BothSignal(EMPTY, a, Seen(None, true, false), b, Seen(None, false, false));
  }

  lemma OneResolved(c: Event)
    ensures var db := SetStatus(Deliver(EMPTY, [c]), c.issue, Resolved);
            Derived(db) && db.events.Keys == {c.key} && StatusIn(db, c.issue) == Some(Resolved)
  {
    OneDelivered(c);
    SetStatusKeepsDerived(Deliver(EMPTY, [c]), c.issue, Resolved);
  }

  /** Two events that both pre-read the issue as resolved both signal IsRegression, though only one flips the row. */
  lemma TwoTransactionsSignalRegression(c: Event, a: Event, b: Event) returns (init: Db, ss: seq<State>)
    requires a.user == "" && b.user == "" && a.issue == b.issue == c.issue
    requires a.key != b.key && a.key != c.key && b.key != c.key
    ensures init == SetStatus(Deliver(EMPTY, [c]), c.issue, Resolved) && Derived(init) && IsRun(init, ss)
    ensures ss[|ss| - 1].log == [Delivered([a], [Signal(a.issue, a.key, false, true, false, true)]),
                                 Delivered([b], [Signal(b.issue, b.key, false, true, false, false)])]
  {
    OneResolved(c);
    init := SetStatus(Deliver(EMPTY, [c]), c.issue, Resolved);
    ss := BothSignal(init, a, Seen(Some(Resolved), false, true), b, Seen(Some(Resolved), false, false));
  }

  // ---- a regression that no signal announces ----

  const MISSED := Seen(Some(Unresolved), false, true)

  lemma OneDelivered(a: Event)
    ensures var db := Deliver(EMPTY, [a]);
            Derived(db) && db.events.Keys == {a.key} && StatusIn(db, a.issue) == Some(Unresolved)
  {
    EmptyDerived();
    DeliverKeepsDerived(EMPTY, [a]);
    assert [a][..0] == [];
    assert Deliver(EMPTY, []) == EMPTY;
  }

  lemma ResolvedComesBack(db: Db, b: Event)
    requires b.issue in db.issues && b.key !in db.events
    ensures var d := SetStatus(db, b.issue, Resolved);
            b.key !in d.events && SeesAt(d, b, 2, MISSED) && ApplyEvent(d, b).issues[b.issue].substatus == "regressed"
  {
  }

  lemma ResolvedInBetween(init: Db, b: Event)
    requires b.issue in init.issues
    ensures Next(Lone(init, 1, b, 2, MISSED, []),
                 Lone(SetStatus(init, b.issue, Resolved), 1, b, 2, MISSED, [Triaged(b.issue, Resolved)]))
  {
    var s := Lone(init, 1, b, 2, MISSED, []);
    var s' := Lone(SetStatus(init, b.issue, Resolved), 1, b, 2, MISSED, [Triaged(b.issue, Resolved)]);
    SameEarlyOverlay(init, SetStatus(init, b.issue, Resolved), b);
    SameEarlyOverlay(init, EMPTY, b);
    FootprintOf(EMPTY, b, 2);
    assert s'.log == s.log + [Triaged(b.issue, Resolved)];
    assert NextBy(s, Triage(b.issue, Resolved), s');
  }

  lemma UntilPreRead(init: Db, b: Event) returns (ss: seq<State>)
    requires b.user == "" && b.key !in init.events && StatusIn(init, b.issue) == Some(Unresolved)
    ensures IsRun(init, ss) && ss[|ss| - 1] == Lone(init, 1, b, 2, MISSED, [])
  {
    var s0, s1 := State(init, map[], []), Lone(init, 1, b, 0, MISSED, []);
    assert s1.txs == s0.txs[1 := NewTx([b])];
    assert NextBy(s0, Begin(1, [b]), s1);
    LoneStep(init, 1, b, 0, MISSED, []);
    LoneStep(init, 1, b, 1, MISSED, []);
    ss := [s0, s1, Lone(init, 1, b, 1, MISSED, []), Lone(init, 1, b, 2, MISSED, [])];
  }

  lemma UntilResolved(init: Db, b: Event) returns (ss: seq<State>)
    requires b.user == "" && b.key !in init.events && StatusIn(init, b.issue) == Some(Unresolved)
    ensures IsRun(init, ss)
    ensures ss[|ss| - 1] == Lone(SetStatus(init, b.issue, Resolved), 1, b, 2, MISSED, [Triaged(b.issue, Resolved)])
  {
    ss := UntilPreRead(init, b);
    ResolvedInBetween(init, b);
    ss := Extend(init, ss, Lone(SetStatus(init, b.issue, Resolved), 1, b, 2, MISSED, [Triaged(b.issue, Resolved)]));
  }

  /**
   An issue is resolved between the pre-read and the upsert of its next event: the row is marked
   regressed and no regression is signalled.
   */
  lemma RegressionGoesUnsignalled(a: Event, b: Event) returns (init: Db, ss: seq<State>)
    requires b.user == "" && a.issue == b.issue && a.key != b.key
    ensures init == Deliver(EMPTY, [a]) && Derived(init) && IsRun(init, ss)
    ensures ss[|ss| - 1].log ==
            [Triaged(a.issue, Resolved), Delivered([b], [Signal(b.issue, b.key, false, false, false, true)])]
    ensures b.issue in ss[|ss| - 1].db.issues && ss[|ss| - 1].db.issues[b.issue].substatus == "regressed"
  {
    OneDelivered(a);
    init := Deliver(EMPTY, [a]);
    ss := UntilResolved(init, b);
    ResolvedComesBack(init, b);
    ss := FinishesAlone(init, ss, SetStatus(init, b.issue, Resolved), 1, b, MISSED, [Triaged(b.issue, Resolved)]);
  }
}
