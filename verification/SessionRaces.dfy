/**
 Any number of transactions that deliver sessions at once. Each session first loads its row's sketches, without a lock,
 and then upserts the row: the counters add to the row as it is then, the sketches overwrite it.
 */
module SessionRaces {
  import opened Wrappers
  import opened Hll
  import opened Sessions

  type Column = c: Option<Blob> | Readable(c) witness None

  type GoodRow = r: Row | ReadableRow(r) witness NEW_ROW

  type Rows = map<RowKey, GoodRow>

  datatype Columns = Columns(distinct: Column, crashed: Column)

  type TxId = nat

  /** An active transaction: `done` deliveries are stored, `read` holds what the next one has loaded. */
  datatype Tx = Tx(items: seq<Delivery>, done: nat, read: Option<Columns>, ov: Rows)

  /** `log` lists the deliveries in commit order. */
  datatype State = State(table: Rows, txs: map<TxId, Tx>, log: seq<Delivery>)

  datatype Step = Begin(id: TxId, items: seq<Delivery>) | Load(id: TxId) | Upsert(id: TxId) | Commit(id: TxId)
                | Rollback(id: TxId)

  function At(t: Rows, k: RowKey): GoodRow { if k in t then t[k] else NEW_ROW }

  function ColumnsOf(r: GoodRow): Columns { Columns(r.distinctDid, r.crashedDid) }

  function Total(d: Delivery): int
    requires d.Aggregate?
  {
    d.exited + d.abnormal + d.crashed + d.errored
  }

  /** The delivery writes the row. */
  predicate Writes(d: Delivery, k: RowKey) { d.key == k && (d.Aggregate? ==> Total(d) != 0) }

  /** The row a delivery leaves when its sketches are fed from `read`. */
  function Fed(r: GoodRow, read: Columns, d: Delivery, digest: Digest): GoodRow {
    if d.Session? then WithSession(r.(distinctDid := read.distinct, crashedDid := read.crashed), d, digest)
    else WithAggregate(r, d)
  }

  predicate Working(t: Tx) { t.done < |t.items| }

  /** The sketches of the next session's row are loaded and not yet written. */
  predicate Reading(t: Tx, k: RowKey) {
    Working(t) && t.read.Some? && t.items[t.done].Session? && t.items[t.done].key == k
  }

  function Loaded(table: Rows, t: Tx): Tx
    requires Working(t)
  {
    t.(read := Some(ColumnsOf(At(table + t.ov, t.items[t.done].key))))
  }

  function Upserted(table: Rows, t: Tx, digest: Digest): Tx
    requires Working(t)
  {
    var d, row := t.items[t.done], At(table + t.ov, t.items[t.done].key);
    var read := if t.read.Some? then t.read.value else ColumnsOf(row);
    t.(done := t.done + 1, read := None, ov := if Writes(d, d.key) then t.ov[d.key := Fed(row, read, d, digest)]
        else t.ov)
  }

  predicate NextBy(digest: Digest, s: State, step: Step, s': State) {
    match step
    case Begin(id, items) => id !in s.txs && s' == s.(txs := s.txs[id := Tx(items, 0, None, map[])])
    case Load(id) =>
      && id in s.txs && Working(s.txs[id]) && s.txs[id].items[s.txs[id].done].Session? && s.txs[id].read.None?
      && s' == s.(txs := s.txs[id := Loaded(s.table, s.txs[id])])
    case Upsert(id) =>
      && id in s.txs && Working(s.txs[id])
      && var t, d := s.txs[id], s.txs[id].items[s.txs[id].done];
         && (d.Session? ==> t.read.Some?)
         && (Writes(d, d.key) ==> forall j :: j in s.txs && j != id ==> d.key !in s.txs[j].ov)
         && s' == s.(txs := s.txs[id := Upserted(s.table, t, digest)])
    case Commit(id) =>
      && id in s.txs && s.txs[id].done == |s.txs[id].items|
      && s' == State(s.table + s.txs[id].ov, s.txs - {id}, s.log + s.txs[id].items)
    case Rollback(id) => id in s.txs && s' == s.(txs := s.txs - {id})
  }

  ghost predicate Next(digest: Digest, s: State, s': State) { exists step :: NextBy(digest, s, step, s') }

  ghost predicate IsRun(digest: Digest, ss: seq<State>) {
    && |ss| > 0 && ss[0] == State(map[], map[], [])
    && forall i :: 0 <= i < |ss| - 1 ==> Next(digest, ss[i], ss[i + 1])
  }

  // ---- one row, delivered to serially ----

  function Delivered(r: GoodRow, d: Delivery, k: RowKey, digest: Digest): GoodRow {
    if Writes(d, k) then Fed(r, ColumnsOf(r), d, digest) else r
  }

  function RowAfter(r: GoodRow, ds: seq<Delivery>, k: RowKey, digest: Digest): GoodRow {
    if ds == [] then r else Delivered(RowAfter(r, ds[..|ds| - 1], k, digest), ds[|ds| - 1], k, digest)
  }

  lemma {:induction false} RowAfterConcat(r: GoodRow, a: seq<Delivery>, b: seq<Delivery>, k: RowKey, digest: Digest)
    ensures RowAfter(r, a + b, k, digest) == RowAfter(RowAfter(r, a, k, digest), b, k, digest)
  {
    if b == [] {
      assert a + b == a;
    } else {
      assert (a + b)[..|a + b| - 1] == a + b[..|b| - 1];
      RowAfterConcat(r, a, b[..|b| - 1], k, digest);
    }
  }

  /** It is the row of the serial table. */
  lemma {:induction false} RowAfterIsSerial(ds: seq<Delivery>, k: RowKey, digest: Digest)
    ensures RowAfter(NEW_ROW, ds, k, digest) == RowAt(DeliverAll(ds, digest), k)
  {
    if ds == [] {
    } else {
      RowAfterIsSerial(ds[..|ds| - 1], k, digest);
    }
  }

  predicate Touched(ds: seq<Delivery>, k: RowKey) { exists d :: d in ds && Writes(d, k) }

  lemma {:induction false} UntouchedRow(r: GoodRow, ds: seq<Delivery>, k: RowKey, digest: Digest)
    requires !Touched(ds, k)
    ensures RowAfter(r, ds, k, digest) == r
  {
    if ds == [] {
    } else {
      assert ds[|ds| - 1] in ds && forall d :: d in ds[..|ds| - 1] ==> d in ds;
      UntouchedRow(r, ds[..|ds| - 1], k, digest);
    }
  }

  // ---- what every run keeps ----

  /** Equal counters and, if asked, equal sketches. */
  predicate Same(full: bool, a: Row, b: Row) {
    && a.total == b.total && a.crashed == b.crashed && a.abnormal == b.abnormal && a.errored == b.errored
    && a.exited == b.exited && a.durationSum == b.durationSum
    && (full ==> a.distinctDid == b.distinctDid && a.crashedDid == b.crashedDid)
  }

  /** The two columns a session stores when it has loaded these. */
  function Stores(d: Delivery, read: Columns, digest: Digest): Columns
    requires d.Session?
  {
    ColumnsOf(Fed(NEW_ROW, read, d, digest))
  }

  /** If it upserted now, the session would store what it would store with the sketches loaded afresh. */
  predicate WouldKeep(table: Rows, t: Tx, k: RowKey, digest: Digest)
    requires Reading(t, k)
  {
    Stores(t.items[t.done], t.read.value, digest) == Stores(t.items[t.done], ColumnsOf(At(table + t.ov, k)), digest)
  }

  /** The transaction's row is what its stored deliveries make of the committed one. */
  predicate TxOk(table: Rows, t: Tx, k: RowKey, digest: Digest, full: bool) {
    && t.done <= |t.items|
    && (k in t.ov <==> Touched(t.items[..t.done], k))
    && (k in t.ov ==> Same(full, t.ov[k], RowAfter(At(table, k), t.items[..t.done], k, digest)))
    && (full && Reading(t, k) ==> WouldKeep(table, t, k, digest))
  }

  ghost predicate Inv(s: State, k: RowKey, digest: Digest, full: bool) {
    && Same(full, At(s.table, k), RowAfter(NEW_ROW, s.log, k, digest))
    && (forall j :: j in s.txs ==> TxOk(s.table, s.txs[j], k, digest, full))
    && (forall i, j :: i in s.txs && j in s.txs && i != j ==> !(k in s.txs[i].ov && k in s.txs[j].ov))
  }

  /**
   A commit changes a row's sketches under a session that has loaded them, and that session does not make up for it.
   */
  predicate Disturbs(s: State, s': State, k: RowKey, digest: Digest) {
    exists j :: && j in s.txs && Reading(s.txs[j], k)
                && var d := s.txs[j].items[s.txs[j].done];
                   Stores(d, ColumnsOf(At(s.table, k)), digest) != Stores(d, ColumnsOf(At(s'.table, k)), digest)
  }

  predicate Undisturbed(ss: seq<State>, n: nat, k: RowKey, digest: Digest)
    requires n < |ss|
  {
    forall i :: 0 < i <= n ==> !Disturbs(ss[i - 1], ss[i], k, digest)
  }

  lemma FedAlike(full: bool, a: GoodRow, b: GoodRow, read: Columns, d: Delivery, digest: Digest)
    requires Same(full, a, b) && (full && d.Session? ==> Stores(d, read, digest) == Stores(d, ColumnsOf(a), digest))
    ensures Same(full, Fed(a, read, d, digest), Fed(b, ColumnsOf(b), d, digest))
  {
  }

  lemma DeliveredAlike(full: bool, a: GoodRow, b: GoodRow, d: Delivery, k: RowKey, digest: Digest)
    requires Same(full, a, b)
    ensures Same(full, Delivered(a, d, k, digest), Delivered(b, d, k, digest))
  {
  }

  lemma {:induction false} RowsAfterAlike(full: bool, a: GoodRow, b: GoodRow, ds: seq<Delivery>, k: RowKey,
      digest: Digest)
    requires Same(full, a, b)
    ensures Same(full, RowAfter(a, ds, k, digest), RowAfter(b, ds, k, digest))
  {
    if ds == [] {
    } else {
      RowsAfterAlike(full, a, b, ds[..|ds| - 1], k, digest);
      var n := |ds| - 1;
      DeliveredAlike(full, RowAfter(a, ds[..n], k, digest), RowAfter(b, ds[..n], k, digest), ds[n], k, digest);
    }
  }

  /** What the transaction sees is what its stored deliveries make of the committed row. */
  lemma VisibleRow(table: Rows, t: Tx, k: RowKey, digest: Digest, full: bool)
    requires TxOk(table, t, k, digest, full)
    ensures Same(full, At(table + t.ov, k), RowAfter(At(table, k), t.items[..t.done], k, digest))
  {
    if k !in t.ov {
      UntouchedRow(At(table, k), t.items[..t.done], k, digest);
    }
  }

  lemma TouchedOneMore(items: seq<Delivery>, n: nat, k: RowKey)
    requires n < |items|
    ensures items[..n + 1] == items[..n] + [items[n]]
    ensures Touched(items[..n + 1], k) <==> Touched(items[..n], k) || Writes(items[n], k)
  {
    assert items[..n + 1] == items[..n] + [items[n]];
    assert forall d :: d in items[..n + 1] <==> d in items[..n] || d == items[n];
  }

  lemma UpsertKeepsTxOk(table: Rows, t: Tx, k: RowKey, digest: Digest, full: bool)
    requires TxOk(table, t, k, digest, full) && Working(t) && (t.items[t.done].Session? ==> t.read.Some?)
    ensures TxOk(table, Upserted(table, t, digest), k, digest, full)
  {
    var d, row := t.items[t.done], At(table + t.ov, t.items[t.done].key);
    TouchedOneMore(t.items, t.done, k);
    assert t.items[..t.done + 1][..t.done] == t.items[..t.done];
    if Writes(d, k) {
      var read := if t.read.Some? then t.read.value else ColumnsOf(row);
      VisibleRow(table, t, k, digest, full);
      FedAlike(full, row, RowAfter(At(table, k), t.items[..t.done], k, digest), read, d, digest);
    }
  }

  lemma LoadKeepsTxOk(table: Rows, t: Tx, k: RowKey, digest: Digest, full: bool)
    requires TxOk(table, t, k, digest, full) && Working(t)
    ensures TxOk(table, Loaded(table, t), k, digest, full)
  {
  }

  /** Another transaction's commit. */
  lemma CommitKeepsTxOk(table: Rows, w: Rows, t: Tx, k: RowKey, digest: Digest, full: bool)
    requires TxOk(table, t, k, digest, full) && !(k in w && k in t.ov)
    requires full && Reading(t, k) ==>
               var d := t.items[t.done];
                   Stores(d, ColumnsOf(At(table, k)), digest) == Stores(d, ColumnsOf(At(table + w, k)), digest)
    ensures TxOk(table + w, t, k, digest, full)
  {
    assert k in t.ov ==> At(table + w, k) == At(table, k);
  }

  lemma CommitKeepsRow(table: Rows, t: Tx, log: seq<Delivery>, k: RowKey, digest: Digest, full: bool)
    requires TxOk(table, t, k, digest, full) && t.done == |t.items|
    requires Same(full, At(table, k), RowAfter(NEW_ROW, log, k, digest))
    ensures Same(full, At(table + t.ov, k), RowAfter(NEW_ROW, log + t.items, k, digest))
  {
    assert t.items[..t.done] == t.items;
    VisibleRow(table, t, k, digest, full);
    RowAfterConcat(NEW_ROW, log, t.items, k, digest);
    RowsAfterAlike(full, At(table, k), RowAfter(NEW_ROW, log, k, digest), t.items, k, digest);
  }

  lemma StepKeepsInv(digest: Digest, s: State, step: Step, s': State, k: RowKey, full: bool)
    requires Inv(s, k, digest, full) && NextBy(digest, s, step, s') && (full ==> !Disturbs(s, s', k, digest))
    ensures Inv(s', k, digest, full)
  {
    match step
    case Begin(id, items) => assert items[..0] == [];
    case Load(id) => LoadKeepsTxOk(s.table, s.txs[id], k, digest, full);
    case Upsert(id) => UpsertKeepsTxOk(s.table, s.txs[id], k, digest, full);
    case Commit(id) =>
      CommitKeepsRow(s.table, s.txs[id], s.log, k, digest, full);
      forall j | j in s'.txs ensures TxOk(s'.table, s'.txs[j], k, digest, full) {
        CommitKeepsTxOk(s.table, s.txs[id].ov, s.txs[j], k, digest, full);
      }
    case Rollback(_) =>
  }

  lemma {:induction false} RunKeepsInv(digest: Digest, ss: seq<State>, n: nat, k: RowKey, full: bool)
    requires IsRun(digest, ss) && n < |ss|
    requires full ==> Undisturbed(ss, n, k, digest)
    ensures Inv(ss[n], k, digest, full)
  {
    if n == 0 {
    } else {
      RunKeepsInv(digest, ss, n - 1, k, full);
      assert Next(digest, ss[n - 1], ss[n - 1 + 1]);
      var step :| NextBy(digest, ss[n - 1], step, ss[n]);
      StepKeepsInv(digest, ss[n - 1], step, ss[n], k, full);
    }
  }

  /** However sessions interleave, the committed counters are those of the serial deliveries in commit order. */
  lemma CountersAreNeverLost(digest: Digest, ss: seq<State>, n: nat, k: RowKey)
    requires IsRun(digest, ss) && n < |ss|
    ensures Same(false, At(ss[n].table, k), RowAt(DeliverAll(ss[n].log, digest), k))
  {
    RunKeepsInv(digest, ss, n, k, false);
    RowAfterIsSerial(ss[n].log, k, digest);
  }

  /**
   The row holds what the deliveries would have left one after the other, and no session that has loaded it would spoil
   that.
   */
  ghost predicate AllKept(s: State, k: RowKey, digest: Digest) {
    && At(s.table, k) == RowAt(DeliverAll(s.log, digest), k)
    && forall j :: j in s.txs && Reading(s.txs[j], k) ==> WouldKeep(s.table, s.txs[j], k, digest)
  }

  /** Whoever has loaded the row has none of its own when a commit changes it. */
  lemma CommittedRowIsNotOwn(digest: Digest, s: State, step: Step, s': State, k: RowKey, j: TxId)
    requires Inv(s, k, digest, false) && NextBy(digest, s, step, s') && At(s.table, k) != At(s'.table, k)
    requires j in s.txs && Reading(s.txs[j], k)
    ensures j in s'.txs && s'.txs[j] == s.txs[j] && k !in s.txs[j].ov
  {
    assert step.Commit? && j != step.id && k in s.txs[step.id].ov;
  }

  lemma DisturbanceLoses(digest: Digest, s: State, step: Step, s': State, k: RowKey)
    requires Inv(s, k, digest, false) && NextBy(digest, s, step, s') && Disturbs(s, s', k, digest)
    ensures !(AllKept(s, k, digest) && AllKept(s', k, digest))
  {
    var j :| && j in s.txs && Reading(s.txs[j], k)
             && var d := s.txs[j].items[s.txs[j].done];
                Stores(d, ColumnsOf(At(s.table, k)), digest) != Stores(d, ColumnsOf(At(s'.table, k)), digest);
    CommittedRowIsNotOwn(digest, s, step, s', k, j);
    var t := s.txs[j];
    assert At(s.table + t.ov, k) == At(s.table, k) && At(s'.table + t.ov, k) == At(s'.table, k);
  }

  /**
   For every run and row: at no moment has the row lost a did, or would a session that has loaded it lose one, exactly
   when no commit changes the row's sketches, in a way the session does not make up for, between its load and its
   upsert.
   */
  lemma DidsAreKeptExactlyWhen(digest: Digest, ss: seq<State>, k: RowKey)
    requires IsRun(digest, ss)
    ensures (forall n :: 0 <= n < |ss| ==> AllKept(ss[n], k, digest)) <==> Undisturbed(ss, |ss| - 1, k, digest)
  {
    if Undisturbed(ss, |ss| - 1, k, digest) {
      forall n | 0 <= n < |ss| ensures AllKept(ss[n], k, digest) {
        RunKeepsInv(digest, ss, n, k, true);
        RowAfterIsSerial(ss[n].log, k, digest);
      }
    }
    if forall n :: 0 <= n < |ss| ==> AllKept(ss[n], k, digest) {
      forall i | 0 < i <= |ss| - 1 ensures !Disturbs(ss[i - 1], ss[i], k, digest) {
        RunKeepsInv(digest, ss, i - 1, k, false);
        assert Next(digest, ss[i - 1], ss[i - 1 + 1]);
        var step :| NextBy(digest, ss[i - 1], step, ss[i]);
        if Disturbs(ss[i - 1], ss[i], k, digest) {
          DisturbanceLoses(digest, ss[i - 1], step, ss[i], k);
        }
      }
    }
  }

  /** Then the row's blobs unpack to the sketches of all committed dids, and of those delivered as crashed. */
  lemma UndisturbedRowsKeepAllDids(digest: Digest, ss: seq<State>, n: nat, k: RowKey)
    requires IsRun(digest, ss) && n < |ss| && Undisturbed(ss, n, k, digest)
    ensures At(ss[n].table, k) == RowAt(DeliverAll(ss[n].log, digest), k)
    ensures Holds(At(ss[n].table, k), Dids(ss[n].log, k, false, digest), Dids(ss[n].log, k, true, digest))
  {
    RunKeepsInv(digest, ss, n, k, true);
    RowAfterIsSerial(ss[n].log, k, digest);
    BlobsAreSketches(ss[n].log, k, digest);
  }

  // ---- a lost did ----

  const NOTHING := ColumnsOf(NEW_ROW)

  function Waiting(d: Delivery): Tx { Tx([d], 0, None, map[]) }

  /** A transaction that has loaded a missing row. */
  function Holding(d: Delivery): Tx { Tx([d], 0, Some(NOTHING), map[]) }

  predicate NothingWritten(s: State) { forall j :: j in s.txs ==> s.txs[j].ov == map[] }

  function Two(t: Tx, u: Tx): State { State(map[], map[1 := t, 2 := u], []) }

  lemma BothLoad(digest: Digest, d: Delivery, e: Delivery) returns (ss: seq<State>)
    requires d.Session? && e.Session? && d.key == e.key
    ensures IsRun(digest, ss) && ss[|ss| - 1] == Two(Holding(d), Holding(e))
  {
    var s0, s1, s2 := State(map[], map[], []), State(map[], map[1 := Waiting(d)], []), Two(Waiting(d), Waiting(e));
    var s3, s4 := Two(Holding(d), Waiting(e)), Two(Holding(d), Holding(e));
    assert NextBy(digest, s0, Begin(1, [d]), s1);
    assert s2.txs == s1.txs[2 := Waiting(e)];
    assert NextBy(digest, s1, Begin(2, [e]), s2);
    assert s3.txs == s2.txs[1 := Holding(d)] && s4.txs == s3.txs[2 := Holding(e)];
    assert NextBy(digest, s2, Load(1), s3);
    assert NextBy(digest, s3, Load(2), s4);
    ss := [s0, s1, s2, s3, s4];
  }

  /** A transaction with a loaded row upserts and commits. */
  lemma UpsertsAndCommits(digest: Digest, s: State, id: TxId, d: Delivery) returns (s': State, s'': State)
    requires d.Session? && id in s.txs && s.txs[id] == Holding(d)
    requires NothingWritten(s)
    ensures Next(digest, s, s') && Next(digest, s', s'')
    ensures var row := Fed(At(s.table, d.key), NOTHING, d, digest);
            s'' == State(s.table[d.key := row], s.txs - {id}, s.log + [d])
  {
    var row := Fed(At(s.table, d.key), NOTHING, d, digest);
    var t := Tx([d], 1, None, map[d.key := row]);
    assert s.table + map[] == s.table && map[][d.key := row] == map[d.key := row];
    s' := s.(txs := s.txs[id := t]);
    assert t == Upserted(s.table, Holding(d), digest);
    assert NextBy(digest, s, Upsert(id), s');
    s'' := State(s.table[d.key := row], s.txs - {id}, s.log + [d]);
    assert s'.txs - {id} == s.txs - {id} && s.table + t.ov == s.table[d.key := row];
    assert NextBy(digest, s', Commit(id), s'');
  }

  lemma Extended(digest: Digest, ss: seq<State>, s: State)
    requires IsRun(digest, ss) && Next(digest, ss[|ss| - 1], s)
    ensures IsRun(digest, ss + [s])
  {
    var r := ss + [s];
    forall i | 0 <= i < |r| - 1 ensures Next(digest, r[i], r[i + 1]) {
      assert i < |ss| - 1 ==> Next(digest, ss[i], ss[i + 1]);
    }
  }

  lemma GoesOn(digest: Digest, ss: seq<State>, id: TxId, d: Delivery) returns (tt: seq<State>)
    requires IsRun(digest, ss) && d.Session? && id in ss[|ss| - 1].txs && ss[|ss| - 1].txs[id] == Holding(d)
    requires NothingWritten(ss[|ss| - 1])
    ensures IsRun(digest, tt)
    ensures var s, s' := ss[|ss| - 1], tt[|tt| - 1];
            && s'.table == s.table[d.key := Fed(At(s.table, d.key), NOTHING, d, digest)]
            && s'.txs == s.txs - {id} && s'.log == s.log + [d]
  {
    var s', s'' := UpsertsAndCommits(digest, ss[|ss| - 1], id, d);
    Extended(digest, ss, s');
    Extended(digest, ss + [s'], s'');
    tt := ss + [s'] + [s''];
  }

  lemma SecondOverwrites(digest: Digest, d: Delivery, e: Delivery) returns (ss: seq<State>)
    requires d.Session? && e.Session? && d.key == e.key
    ensures IsRun(digest, ss) && ss[|ss| - 1].log == [d, e]
    ensures ss[|ss| - 1].table == map[d.key := Fed(Fed(NEW_ROW, NOTHING, d, digest), NOTHING, e, digest)]
  {
    ss := BothLoad(digest, d, e);
    ss := GoesOn(digest, ss, 1, d);
    ss := GoesOn(digest, ss, 2, e);
  }

  lemma OneDidOnly(row: GoodRow, e: Delivery, digest: Digest)
    requires e.Session? && e.did != ""
    ensures IsSketchOf(Contents(Fed(row, NOTHING, e, digest).distinctDid), {digest(e.did)})
  {
    BlankIsEmpty();
    RefilledSketch(None, {}, true, digest(e.did));
    assert {} + {digest(e.did)} == {digest(e.did)};
  }

  lemma OtherRegister(regs: Registers, h: Hash, g: Hash)
    requires IsSketchOf(regs, {h}) && IndexOf(g) != IndexOf(h)
    ensures !IsSketchOf(regs, {g, h})
  {
    RankFits(g);
    assert Register(regs[IndexOf(g)], IndexOf(g), {h});
  }

  /**
   Two transactions that both load a row before either writes it: both sessions are counted, the second's did is stored
   and the first's is lost, unless it happens to share its register.
   */
  lemma FirstDidIsLost(digest: Digest, d: Delivery, e: Delivery) returns (ss: seq<State>)
    requires d.Session? && e.Session? && d.key == e.key && d.did != "" && e.did != ""
    requires IndexOf(digest(d.did)) != IndexOf(digest(e.did))
    ensures IsRun(digest, ss) && ss[|ss| - 1].log == [d, e] && d.key in ss[|ss| - 1].table
    ensures var row := ss[|ss| - 1].table[d.key];
            && row.total == 2
            && IsSketchOf(Contents(row.distinctDid), {digest(e.did)})
            && !IsSketchOf(Contents(row.distinctDid), {digest(d.did), digest(e.did)})
  {
    ss := SecondOverwrites(digest, d, e);
    OneDidOnly(Fed(NEW_ROW, NOTHING, d, digest), e, digest);
    OtherRegister(Contents(ss[|ss| - 1].table[d.key].distinctDid), digest(e.did), digest(d.did));
  }
}
