/**
 Hourly session rollups: additive counters plus two sketches of device ids per row, read,
 updated and written back by every delivered session, and merged across rows by ReleaseHealth.
 Deliveries are serial: the read of the sketches takes no row lock.
 */
module Sessions {
  import opened Wrappers
  import opened Hll

  datatype RowKey = RowKey(project: string, release: string, environment: string, hour: int)

  /** None is SQL NULL. */
  datatype Row = Row(total: int, crashed: int, abnormal: int, errored: int, exited: int, durationSum: real,
                     distinctDid: Option<Blob>, crashedDid: Option<Blob>)

  /** A validated session (did is "" when absent) or one entry of a pre-aggregated item. */
  datatype Delivery =
    | Session(key: RowKey, status: string, errors: int, duration: real, did: string)
    | Aggregate(key: RowKey, exited: int, abnormal: int, crashed: int, errored: int)

  type Table = map<RowKey, Row>
  type Digest = string -> Hash

  /** A NULL or empty column reads as an empty sketch; any other size is an error. */
  predicate Readable(column: Option<Blob>) { column.None? || |column.value| == 0 || |column.value| == BLOB_SIZE }

  function Contents(column: Option<Blob>): (regs: Registers)
    requires Readable(column)
    ensures Shaped(regs)
  {
    if column.None? || |column.value| == 0 then Blank() else Unpack(column.value)
  }

  function One(b: bool): int { if b then 1 else 0 }

  const NEW_ROW := Row(0, 0, 0, 0, 0, 0.0, None, None)

  function RowAt(t: Table, k: RowKey): Row { if k in t then t[k] else NEW_ROW }

  /** The column after a did is folded in (or not) and packed again. */
  function Refilled(column: Option<Blob>, insert: bool, h: Hash): Option<Blob>
    requires Readable(column)
  {
    Some(Pack(if insert then Inserted(Contents(column), h) else Contents(column)))
  }

  function WithSession(row: Row, d: Delivery, digest: Digest): Row
    requires d.Session? && Readable(row.distinctDid) && Readable(row.crashedDid)
  {
    Row(row.total + 1, row.crashed + One(d.status == "crashed"), row.abnormal + One(d.status == "abnormal"),
        row.errored + One(d.status == "ok" && d.errors > 0), row.exited + One(d.status == "exited"),
        row.durationSum + d.duration,
        Refilled(row.distinctDid, d.did != "", digest(d.did)),
        Refilled(row.crashedDid, d.did != "" && d.status == "crashed", digest(d.did)))
  }

  function WithAggregate(row: Row, d: Delivery): Row
    requires d.Aggregate?
  {
    row.(total := row.total + d.exited + d.abnormal + d.crashed + d.errored, crashed := row.crashed + d.crashed,
         abnormal := row.abnormal + d.abnormal, errored := row.errored + d.errored, exited := row.exited + d.exited)
  }

  predicate ReadableRow(row: Row) { Readable(row.distinctDid) && Readable(row.crashedDid) }

  predicate Stored(t: Table) { forall k <- t :: ReadableRow(t[k]) }

  /** One delivery; an aggregate whose counts add up to zero is skipped. */
  function Deliver(t: Table, d: Delivery, digest: Digest): Table
    requires d.Session? ==> ReadableRow(RowAt(t, d.key))
  {
    match d
    case Session(k, _, _, _, _) => t[k := WithSession(RowAt(t, k), d, digest)]
    case Aggregate(k, exited, abnormal, crashed, errored) =>
      if exited + abnormal + crashed + errored == 0 then t else t[k := WithAggregate(RowAt(t, k), d)]
  }

  function DeliverAll(ds: seq<Delivery>, digest: Digest): (t: Table)
    ensures Stored(t)
  {
    if ds == [] then map[] else Deliver(DeliverAll(ds[..|ds| - 1], digest), ds[|ds| - 1], digest)
  }

  /** The tables as the store methods update them. */
  class SessionStore {
    var rollups: Table

    constructor ()
      ensures rollups == map[]
    {
      rollups := map[];
    }

    /** Reads one sketch column of a row into a fresh sketch. */
    method LoadSketch(column: Option<Blob>) returns (r: Result<Sketch>)
      ensures r.Ok? <==> Readable(column)
      ensures r.Ok? ==> fresh(r.value) && fresh(r.value.registers)
      ensures r.Ok? ==> r.value.Valid() && r.value.registers[..] == Contents(column)
    {
      if column.None? || |column.value| == 0 {
        var s := new Sketch();
        return Ok(s);
      }
      r := UnmarshalBinary(column.value);
    }

    /** One column: loaded, fed with the did or not, and packed again. */
    method Refill(column: Option<Blob>, insert: bool, h: Hash) returns (r: Result<Blob>)
      ensures r.Ok? <==> Readable(column)
      ensures r.Ok? ==> Some(r.value) == Refilled(column, insert, h)
    {
      var sketch := LoadSketch(column);
      if sketch.Err? { return Err("sketch"); }
      if insert {
        sketch.value.InsertHash(h);
      }
      var blob := sketch.value.MarshalBinary();
      r := Ok(blob);
    }

    /** Both columns of a row. */
    method RefillBoth(row: Row, d: Delivery, digest: Digest) returns (r: Result<(Blob, Blob)>)
      requires d.Session?
      ensures r.Ok? <==> ReadableRow(row)
      ensures r.Ok? ==> Some(r.value.0) == Refilled(row.distinctDid, d.did != "", digest(d.did))
      ensures r.Ok? ==> Some(r.value.1) == Refilled(row.crashedDid, d.did != "" && d.status == "crashed", digest(d.did))
    {
      var distinct := Refill(row.distinctDid, d.did != "", digest(d.did));
      if distinct.Err? { return Err("session_rollups sketch"); }
      var crashed := Refill(row.crashedDid, d.did != "" && d.status == "crashed", digest(d.did));
      if crashed.Err? { return Err("session_rollups sketch"); }
      r := Ok((distinct.value, crashed.value));
    }

    /** Folds a session into its row: counters add up, the two sketches are loaded, fed and stored. */
    method StoreSession(d: Delivery, digest: Digest) returns (r: Result<()>)
      requires d.Session?
      modifies this
      ensures r.Ok? <==> ReadableRow(RowAt(old(rollups), d.key))
      ensures r.Ok? ==> rollups == old(rollups)[d.key := WithSession(RowAt(old(rollups), d.key), d, digest)]
      ensures r.Err? ==> rollups == old(rollups)
    {
      var row := RowAt(rollups, d.key);
      var blobs := RefillBoth(row, d, digest);
      if blobs.Err? { return Err(blobs.error); }
      var next := Row(
        row.total + 1, row.crashed + One(d.status == "crashed"), row.abnormal + One(d.status == "abnormal"),
        row.errored + One(d.status == "ok" && d.errors > 0), row.exited + One(d.status == "exited"),
        row.durationSum + d.duration, Some(blobs.value.0), Some(blobs.value.1));
      assert next == WithSession(row, d, digest);
      rollups := rollups[d.key := next];
      r := Ok(());
    }

    /**
     Adds the entries of a pre-aggregated item, None where a start is missing or malformed: too long an item is refused
     at once, a bad start ends it with the entries before it added, which the enclosing transaction takes back.
     */
    method StoreAggregates(entries: seq<Option<Delivery>>, digest: Digest) returns (r: Result<()>)
      requires AllAggregates(entries)
      modifies this
      ensures r.Ok? <==> |entries| <= 100 && forall i :: 0 <= i < |entries| ==> entries[i].Some?
      ensures rollups == if |entries| > 100 then old(rollups)
              else DeliverEach(old(rollups), UpToBad(entries), digest)
    {
      if |entries| > MAX_AGGREGATES {
        return Err("too many aggregates");
      }
      ghost var ds: seq<Delivery> := [];
      for i := 0 to |entries|
        invariant |ds| == i && forall k :: 0 <= k < i ==> entries[k] == Some(ds[k])
        invariant forall d :: d in ds ==> d.Aggregate?
        invariant rollups == DeliverEach(old(rollups), ds, digest)
      {
        if entries[i].None? {
          UpToBadIs(entries, ds);
          return Err("aggregate started");
        }
        var d := entries[i].value;
        assert (ds + [d])[..i] == ds && entries[i] in entries;
        if d.exited + d.abnormal + d.crashed + d.errored != 0 {
          rollups := rollups[d.key := WithAggregate(RowAt(rollups, d.key), d)];
        }
        ds := ds + [d];
      }
      UpToBadIs(entries, ds);
      r := Ok(());
    }
  }

  const MAX_AGGREGATES := 100

  predicate AllAggregates(entries: seq<Option<Delivery>>) { forall e :: e in entries && e.Some? ==> e.value.Aggregate? }

  /** The entries before the first bad one. */
  function UpToBad(entries: seq<Option<Delivery>>): (ds: seq<Delivery>)
    requires AllAggregates(entries)
    ensures forall d :: d in ds ==> d.Aggregate?
  {
    if entries == [] || entries[0].None? then [] else
    assert entries[0] in entries;
    [entries[0].value] + UpToBad(entries[1..])
  }

  lemma {:induction false} UpToBadIs(entries: seq<Option<Delivery>>, ds: seq<Delivery>)
    requires AllAggregates(entries) && |ds| <= |entries| && forall k :: 0 <= k < |ds| ==> entries[k] == Some(ds[k])
    requires |ds| == |entries| || entries[|ds|].None?
    ensures UpToBad(entries) == ds
  {
    if ds == [] {
    } else {
      UpToBadIs(entries[1..], ds[1..]);
      assert ds == [ds[0]] + ds[1..];
    }
  }

  function DeliverEach(t: Table, ds: seq<Delivery>, digest: Digest): Table
    requires forall d :: d in ds ==> d.Aggregate?
  {
    if ds == [] then t else
    assert ds[|ds| - 1] in ds;
    Deliver(DeliverEach(t, ds[..|ds| - 1], digest), ds[|ds| - 1], digest)
  }

  lemma {:induction false} AggregateKeepsSketches(t: Table, d: Delivery, k: RowKey, digest: Digest)
    requires d.Aggregate?
    ensures var row := RowAt(Deliver(t, d, digest), k);
            row.distinctDid == RowAt(t, k).distinctDid && row.crashedDid == RowAt(t, k).crashedDid
  {
  }

  /** Aggregates leave every sketch column as it was. */
  lemma {:induction false} AggregatesKeepSketches(t: Table, ds: seq<Delivery>, k: RowKey, digest: Digest)
    requires forall d :: d in ds ==> d.Aggregate?
    ensures var row := RowAt(DeliverEach(t, ds, digest), k);
            row.distinctDid == RowAt(t, k).distinctDid && row.crashedDid == RowAt(t, k).crashedDid
  {
    if ds == [] {
    } else {
      assert ds[|ds| - 1] in ds;
      AggregatesKeepSketches(t, ds[..|ds| - 1], k, digest);
      AggregateKeepsSketches(DeliverEach(t, ds[..|ds| - 1], digest), ds[|ds| - 1], k, digest);
    }
  }

  // ---- what the stored sketches mean ----

  /** The hashes of the dids delivered to a row, over all sessions or over those delivered as crashed. */
  function Dids(ds: seq<Delivery>, k: RowKey, onlyCrashed: bool, digest: Digest): set<Hash> {
    set d | d in ds && d.Session? && d.key == k && d.did != ""
        && (onlyCrashed ==> d.status == "crashed") :: digest(d.did)
  }

  lemma DidsOfOneMore(ds: seq<Delivery>, k: RowKey, onlyCrashed: bool, digest: Digest)
    requires ds != []
    ensures var d := ds[|ds| - 1];
            Dids(ds, k, onlyCrashed, digest) == Dids(ds[..|ds| - 1], k, onlyCrashed, digest)
              + (if d.Session? && d.key == k && d.did != "" && (onlyCrashed ==> d.status == "crashed")
                  then {digest(d.did)} else {})
  {
    assert ds == ds[..|ds| - 1] + [ds[|ds| - 1]];
  }

  lemma PackKeepsSketch(regs: Registers, hs: set<Hash>)
    requires IsSketchOf(regs, hs)
    ensures IsSketchOf(Contents(Some(Pack(regs))), hs)
  {
    ReachableRegisters(regs, hs);
    PackUnpackInverse(regs, Pack(regs));
  }

  lemma RefilledSketch(column: Option<Blob>, hs: set<Hash>, insert: bool, h: Hash)
    requires Readable(column) && IsSketchOf(Contents(column), hs)
    ensures Readable(Refilled(column, insert, h))
    ensures IsSketchOf(Contents(Refilled(column, insert, h)), if insert then hs + {h} else hs)
  {
    if insert {
      InsertAdds(Contents(column), hs, h);
      PackKeepsSketch(Inserted(Contents(column), h), hs + {h});
    } else {
      PackKeepsSketch(Contents(column), hs);
    }
  }

  /** A row whose columns are the sketches of two sets. */
  ghost predicate Holds(row: Row, distinct: set<Hash>, crashed: set<Hash>) {
    && Readable(row.distinctDid) && Readable(row.crashedDid)
    && IsSketchOf(Contents(row.distinctDid), distinct) && IsSketchOf(Contents(row.crashedDid), crashed)
  }

  lemma SessionFeedsSketches(row: Row, d: Delivery, digest: Digest, distinct: set<Hash>, crashed: set<Hash>)
    requires d.Session? && Holds(row, distinct, crashed)
    ensures Holds(WithSession(row, d, digest),
                  if d.did != "" then distinct + {digest(d.did)} else distinct,
                  if d.did != "" && d.status == "crashed" then crashed + {digest(d.did)} else crashed)
  {
    RefilledSketch(row.distinctDid, distinct, d.did != "", digest(d.did));
    RefilledSketch(row.crashedDid, crashed, d.did != "" && d.status == "crashed", digest(d.did));
  }

  lemma SketchesAreColumns(a: Row, b: Row, distinct: set<Hash>, crashed: set<Hash>)
    requires a.distinctDid == b.distinctDid && a.crashedDid == b.crashedDid && Holds(a, distinct, crashed)
    ensures Holds(b, distinct, crashed)
  {
  }

  /** One delivery adds its did, if it is a session of this row, and leaves every other row's sketches alone. */
  lemma DeliveryFeedsRow(t: Table, d: Delivery, k: RowKey, digest: Digest, distinct: set<Hash>, crashed: set<Hash>)
    requires Stored(t) && Holds(RowAt(t, k), distinct, crashed)
    ensures var fed := d.Session? && d.key == k && d.did != "";
            Holds(RowAt(Deliver(t, d, digest), k),
                  distinct + (if fed then {digest(d.did)} else {}),
                  crashed + (if fed && d.status == "crashed" then {digest(d.did)} else {}))
  {
    var row, row' := RowAt(t, k), RowAt(Deliver(t, d, digest), k);
    assert distinct + {} == distinct && crashed + {} == crashed;
    if d.Session? && d.key == k {
      SessionFeedsSketches(row, d, digest, distinct, crashed);
    } else {
      SketchesAreColumns(row, row', distinct, crashed);
    }
  }

  /**
   After any serial deliveries every row's blobs unpack to the sketches of the dids delivered to it
   and of the dids delivered to it as crashed; rows nobody delivered to have no dids.
   */
  lemma {:induction false} BlobsAreSketches(ds: seq<Delivery>, k: RowKey, digest: Digest)
    ensures Holds(RowAt(DeliverAll(ds, digest), k), Dids(ds, k, false, digest), Dids(ds, k, true, digest))
  {
    if ds == [] {
      BlankIsEmpty();
    } else {
      var front, d := ds[..|ds| - 1], ds[|ds| - 1];
      BlobsAreSketches(front, k, digest);
      DidsOfOneMore(ds, k, false, digest);
      DidsOfOneMore(ds, k, true, digest);
      DeliveryFeedsRow(DeliverAll(front, digest), d, k, digest, Dids(front, k, false, digest),
          Dids(front, k, true, digest));
    }
  }

  /** The order and repetition of deliveries leave no trace in the sketches. */
  lemma SameDidsSameSketches(ds: seq<Delivery>, es: seq<Delivery>, k: RowKey, digest: Digest)
    requires Dids(ds, k, false, digest) == Dids(es, k, false, digest)
             && Dids(ds, k, true, digest) == Dids(es, k, true, digest)
    ensures var a, b := RowAt(DeliverAll(ds, digest), k), RowAt(DeliverAll(es, digest), k);
            && Readable(a.distinctDid) && Readable(b.distinctDid) && Contents(a.distinctDid) == Contents(b.distinctDid)
            && Readable(a.crashedDid) && Readable(b.crashedDid) && Contents(a.crashedDid) == Contents(b.crashedDid)
  {
    BlobsAreSketches(ds, k, digest);
    BlobsAreSketches(es, k, digest);
    var a, b := RowAt(DeliverAll(ds, digest), k), RowAt(DeliverAll(es, digest), k);
    SketchIsUnique(Contents(a.distinctDid), Contents(b.distinctDid), Dids(ds, k, false, digest));
    SketchIsUnique(Contents(a.crashedDid), Contents(b.crashedDid), Dids(ds, k, true, digest));
  }

  /** The crashed sketch never exceeds the distinct one. */
  lemma CrashedIsBelowDistinct(ds: seq<Delivery>, k: RowKey, digest: Digest)
    ensures var row := RowAt(DeliverAll(ds, digest), k);
            && Readable(row.distinctDid) && Readable(row.crashedDid)
            && Below(Contents(row.crashedDid), Contents(row.distinctDid))
  {
    BlobsAreSketches(ds, k, digest);
    var row := RowAt(DeliverAll(ds, digest), k);
    SubsetIsBelow(Contents(row.crashedDid), Dids(ds, k, true, digest), Contents(row.distinctDid),
        Dids(ds, k, false, digest));
  }

  /** A session that is neither crashed, abnormal nor exited, and not ok with errors. */
  predicate Uneventful(d: Delivery) {
    d.Session? && d.status != "crashed" && d.status != "abnormal" && d.status != "exited"
        && !(d.status == "ok" && d.errors > 0)
  }

  function CountUneventful(ds: seq<Delivery>, k: RowKey): nat {
    if ds == [] then 0 else
    var d := ds[|ds| - 1];
    CountUneventful(ds[..|ds| - 1], k) + (if d.key == k && Uneventful(d) then 1 else 0)
  }

  /**
   Each delivery enters exactly one outcome counter or none: what the four leave of the total are the uneventful
   sessions.
   */
  lemma {:induction false} OutcomesSplitTotal(ds: seq<Delivery>, k: RowKey, digest: Digest)
    ensures var row := RowAt(DeliverAll(ds, digest), k);
            row.total == row.crashed + row.abnormal + row.errored + row.exited + CountUneventful(ds, k)
  {
    if ds == [] {
    } else {
      OutcomesSplitTotal(ds[..|ds| - 1], k, digest);
    }
  }

  /** The sum of a measure over the deliveries to a row. */
  function SumTo(ds: seq<Delivery>, k: RowKey, f: Delivery -> int): int {
    if ds == [] then 0 else
    var d := ds[|ds| - 1];
    SumTo(ds[..|ds| - 1], k, f) + (if d.key == k then f(d) else 0)
  }

  function DurationTo(ds: seq<Delivery>, k: RowKey): real {
    if ds == [] then 0.0 else
    var d := ds[|ds| - 1];
    DurationTo(ds[..|ds| - 1], k) + (if d.key == k && d.Session? then d.duration else 0.0)
  }

  /** An aggregate entry whose four counts add up to zero leaves no trace, even if they cancel out. */
  predicate Counts(d: Delivery) { d.Aggregate? ==> d.exited + d.abnormal + d.crashed + d.errored != 0 }

  function SessionsIn(): Delivery -> int {
    (d: Delivery) => if d.Session? then 1 else d.exited + d.abnormal + d.crashed + d.errored
  }

  function CrashedIn(): Delivery -> int {
    (d: Delivery) => if !Counts(d) then 0 else if d.Aggregate? then d.crashed else if d.status == "crashed" then 1
        else 0
  }

  function AbnormalIn(): Delivery -> int {
    (d: Delivery) => if !Counts(d) then 0 else if d.Aggregate? then d.abnormal else if d.status == "abnormal" then 1
        else 0
  }

  function ExitedIn(): Delivery -> int {
    (d: Delivery) => if !Counts(d) then 0 else if d.Aggregate? then d.exited else if d.status == "exited" then 1 else 0
  }

  function ErroredIn(): Delivery -> int {
    (d: Delivery) =>
      if !Counts(d) then 0 else if d.Aggregate? then d.errored else if d.status == "ok" && d.errors > 0 then 1 else 0
  }

  /** What one delivery adds to the columns of its row. */
  lemma {:induction false} OneDeliveryCounts(t: Table, d: Delivery, k: RowKey, digest: Digest)
    requires d.key == k && ReadableRow(RowAt(t, k))
    ensures var row, row' := RowAt(t, k), RowAt(Deliver(t, d, digest), k);
            && row'.total == row.total + SessionsIn()(d)
            && row'.crashed == row.crashed + CrashedIn()(d) && row'.abnormal == row.abnormal + AbnormalIn()(d)
            && row'.exited == row.exited + ExitedIn()(d) && row'.errored == row.errored + ErroredIn()(d)
            && row'.durationSum == row.durationSum + (if d.Session? then d.duration else 0.0)
  {
  }

  /**
   Each column of a row counts its own outcome: the sessions delivered with it and what aggregates report of it. The
   duration is that of the sessions.
   */
  lemma {:induction false} EachColumnCountsItsOutcome(ds: seq<Delivery>, k: RowKey, digest: Digest)
    ensures var row := RowAt(DeliverAll(ds, digest), k);
            && row.total == SumTo(ds, k, SessionsIn())
            && row.crashed == SumTo(ds, k, CrashedIn()) && row.abnormal == SumTo(ds, k, AbnormalIn())
            && row.exited == SumTo(ds, k, ExitedIn()) && row.errored == SumTo(ds, k, ErroredIn())
            && row.durationSum == DurationTo(ds, k)
  {
    if ds == [] {
    } else {
      var front, d := ds[..|ds| - 1], ds[|ds| - 1];
      EachColumnCountsItsOutcome(front, k, digest);
      if d.key == k {
        OneDeliveryCounts(DeliverAll(front, digest), d, k, digest);
      } else {
        assert RowAt(Deliver(DeliverAll(front, digest), d, digest), k) == RowAt(DeliverAll(front, digest), k);
      }
    }
  }

  // ---- ReleaseHealth ----

  datatype Pending = Pending(total: int, crashed: int, abnormal: int, errored: int, all: Option<Registers>,
      crash: Option<Registers>)

  function Merged(acc: Option<Registers>, column: Option<Blob>): Option<Registers>
    requires Readable(column) && (acc.Some? ==> Shaped(acc.value))
  {
    if column.None? || |column.value| == 0 then acc
    else Some(if acc.None? then Unpack(column.value) else Join(acc.value, Unpack(column.value)))
  }

  /** The dids of all selected rows of a release. */
  function DidsOfRelease(ds: seq<Delivery>, keys: seq<RowKey>, release: string, onlyCrashed: bool,
      digest: Digest): set<Hash> {
    set k, d | k in keys && k.release == release && d in ds && d.Session? && d.key == k && d.did != ""
               && (onlyCrashed ==> d.status == "crashed") :: digest(d.did)
  }

  lemma DidsOfOneMoreRow(ds: seq<Delivery>, keys: seq<RowKey>, n: nat, release: string, onlyCrashed: bool,
      digest: Digest)
    requires n < |keys|
    ensures DidsOfRelease(ds, keys[..n + 1], release, onlyCrashed, digest)
            == DidsOfRelease(ds, keys[..n], release, onlyCrashed, digest)
               + (if keys[n].release == release then Dids(ds, keys[n], onlyCrashed, digest) else {})
  {
    assert keys[..n + 1] == keys[..n] + [keys[n]];
    assert forall k :: k in keys[..n + 1] <==> k in keys[..n] || k == keys[n];
  }

  /** A missing sketch counts as empty. */
  ghost predicate Unioned(acc: Option<Registers>, hs: set<Hash>) {
    IsSketchOf(if acc.Some? then acc.value else Blank(), hs)
  }

  lemma MergedIsUnion(acc: Option<Registers>, hs: set<Hash>, column: Option<Blob>, ds: set<Hash>)
    requires Unioned(acc, hs) && Readable(column) && IsSketchOf(Contents(column), ds)
    ensures Unioned(Merged(acc, column), hs + ds)
  {
    var before := if acc.Some? then acc.value else Blank();
    JoinIsUnion(before, hs, Contents(column), ds);
    JoinLaws(before, Blank(), Blank(), 0);
    JoinLaws(Contents(column), Blank(), Blank(), 0);
    assert Below(Blank(), before) && Below(Blank(), Contents(column));
    JoinLaws(Blank(), before, Blank(), 0);
    JoinLaws(Blank(), Contents(column), Blank(), 0);
  }

  /** A counter column summed over the selected rows of a release. */
  function SumOf(t: Table, keys: seq<RowKey>, release: string, column: Row -> int): int {
    if keys == [] then 0 else
    var k := keys[|keys| - 1];
    SumOf(t, keys[..|keys| - 1], release, column) + (if k.release == release then column(RowAt(t, k)) else 0)
  }

  const NO_PENDING := Pending(0, 0, 0, 0, None, None)

  function PendingAt(out: map<string, Pending>, r: string): Pending { if r in out then out[r] else NO_PENDING }

  function WithRow(p: Pending, row: Row): Pending
    requires Readable(row.distinctDid) && Readable(row.crashedDid)
    requires (p.all.Some? ==> Shaped(p.all.value)) && (p.crash.Some? ==> Shaped(p.crash.value))
  {
    Pending(p.total + row.total, p.crashed + row.crashed, p.abnormal + row.abnormal, p.errored + row.errored,
            Merged(p.all, row.distinctDid), Merged(p.crash, row.crashedDid))
  }

  /** The fold of the rows of one release so far. */
  ghost predicate Folded(p: Pending, ds: seq<Delivery>, keys: seq<RowKey>, r: string, digest: Digest) {
    && Unioned(p.all, DidsOfRelease(ds, keys, r, false, digest))
    && Unioned(p.crash, DidsOfRelease(ds, keys, r, true, digest))
  }

  /** One column of one more row. */
  lemma ColumnOneMore(acc: Option<Registers>, column: Option<Blob>, ds: seq<Delivery>, keys: seq<RowKey>, n: nat,
      r: string,
                      onlyCrashed: bool, digest: Digest)
    requires n < |keys| && Unioned(acc, DidsOfRelease(ds, keys[..n], r, onlyCrashed, digest))
    requires Readable(column) && IsSketchOf(Contents(column), Dids(ds, keys[n], onlyCrashed, digest))
    ensures var merged := if keys[n].release == r then Merged(acc, column) else acc;
            Unioned(merged, DidsOfRelease(ds, keys[..n + 1], r, onlyCrashed, digest))
  {
    var before := DidsOfRelease(ds, keys[..n], r, onlyCrashed, digest);
    DidsOfOneMoreRow(ds, keys, n, r, onlyCrashed, digest);
    if keys[n].release == r {
      MergedIsUnion(acc, before, column, Dids(ds, keys[n], onlyCrashed, digest));
    } else {
      assert before + {} == before;
    }
  }

  lemma FoldOneMore(p: Pending, row: Row, ds: seq<Delivery>, keys: seq<RowKey>, n: nat, r: string, digest: Digest)
    requires n < |keys| && Folded(p, ds, keys[..n], r, digest)
    requires Holds(row, Dids(ds, keys[n], false, digest), Dids(ds, keys[n], true, digest))
    ensures Folded(if keys[n].release == r then WithRow(p, row) else p, ds, keys[..n + 1], r, digest)
  {
    ColumnOneMore(p.all, row.distinctDid, ds, keys, n, r, false, digest);
    ColumnOneMore(p.crash, row.crashedDid, ds, keys, n, r, true, digest);
  }

  lemma NothingFolded(ds: seq<Delivery>, r: string, digest: Digest)
    ensures Folded(NO_PENDING, ds, [], r, digest)
  {
    BlankIsEmpty();
  }

  predicate PendingOk(p: Pending) { (p.all.Some? ==> Shaped(p.all.value)) && (p.crash.Some? ==> Shaped(p.crash.value)) }

  predicate Selected(t: Table, keys: seq<RowKey>) { forall k :: k in keys ==> k in t && ReadableRow(t[k]) }

  /** The accumulators after the selected rows, in order. */
  function FoldRows(t: Table, keys: seq<RowKey>): (out: map<string, Pending>)
    requires Selected(t, keys)
    ensures forall r <- out :: PendingOk(out[r])
  {
    if keys == [] then map[] else
    var k, before := keys[|keys| - 1], FoldRows(t, keys[..|keys| - 1]);
    before[k.release := WithRow(PendingAt(before, k.release), t[k])]
  }

  /** One merged sketch per release; no two releases share an array. */
  class SketchTable {
    var sketches: map<string, Sketch>
    ghost var repr: set<array<Byte>>

    ghost predicate Valid()
      reads this
    {
      && (forall r <- sketches :: sketches[r].registers.Length == REGISTERS && sketches[r].registers in repr)
      && (forall r, q :: r in sketches && q in sketches && r != q ==> sketches[r].registers != sketches[q].registers)
    }

    function At(r: string): (acc: Option<Registers>)
      requires Valid()
      reads this, repr
      ensures acc.Some? ==> Shaped(acc.value)
    {
      if r in sketches then Some(sketches[r].registers[..]) else None
    }

    constructor ()
      ensures Valid() && repr == {} && sketches == map[]
    {
      sketches, repr := map[], {};
    }

    /** The first sketch of a release is kept, later ones are merged into it in place. */
    method Add(release: string, column: Option<Blob>) returns (ok: bool)
      requires Valid()
      modifies this, repr
      ensures ok <==> Readable(column)
      ensures ok ==> Valid() && fresh(repr - old(repr))
      ensures ok ==> forall r :: At(r) == if r == release then Merged(old(At(r)), column) else old(At(r))
    {
      if column.None? || |column.value| == 0 {
        return true;
      }
      var sk := UnmarshalBinary(column.value);
      if sk.Err? {
        return false;
      }
      if release !in sketches {
        sketches := sketches[release := sk.value];
        repr := repr + {sk.value.registers};
      } else {
        sketches[release].Merge(sk.value);
      }
      ok := true;
    }
  }

  datatype Counters = Counters(total: int, crashed: int, abnormal: int, errored: int)

  function CountersAt(counters: map<string, Counters>, r: string): Counters {
    if r in counters then counters[r] else Counters(0, 0, 0, 0)
  }

  function Plus(c: Counters, row: Row): Counters {
    Counters(c.total + row.total, c.crashed + row.crashed, c.abnormal + row.abnormal, c.errored + row.errored)
  }

  function Pend(c: Counters, all: Option<Registers>, crash: Option<Registers>): Pending {
    Pending(c.total, c.crashed, c.abnormal, c.errored, all, crash)
  }

  lemma SameAccumulators(a: map<string, Pending>, b: map<string, Pending>)
    requires a.Keys == b.Keys && forall r :: PendingAt(a, r) == PendingAt(b, r)
    ensures a == b
  {
    forall r | r in a ensures a[r] == b[r] {
      assert PendingAt(a, r) == PendingAt(b, r) && r in b.Keys;
    }
  }

  /** The pending rows by release: counters and the two merged sketches. */
  class HealthTable {
    var counters: map<string, Counters>
    const allDids: SketchTable
    const crashDids: SketchTable

    ghost predicate Valid()
      reads this, allDids, crashDids
    {
      allDids.Valid() && crashDids.Valid() && allDids != crashDids && allDids.repr !! crashDids.repr
    }

    ghost function Repr(): set<object>
      reads this, allDids, crashDids
    {
      {this, allDids, crashDids} + allDids.repr + crashDids.repr
    }

    function At(r: string): (p: Pending)
      requires Valid()
      reads this, allDids, crashDids, allDids.repr, crashDids.repr
      ensures PendingOk(p)
    {
      Pend(CountersAt(counters, r), allDids.At(r), crashDids.At(r))
    }

    constructor ()
      ensures Valid() && fresh(Repr()) && counters == map[] && allDids.sketches == map[] && crashDids.sketches == map[]
    {
      counters := map[];
      allDids := new SketchTable();
      crashDids := new SketchTable();
    }

    method AddCounters(release: string, row: Row)
      modifies `counters
      ensures counters.Keys == old(counters.Keys) + {release}
      ensures forall r :: CountersAt(counters, r) == if r == release then Plus(old(CountersAt(counters, r)), row)
              else old(CountersAt(counters, r))
    {
      counters := counters[release := Plus(CountersAt(counters, release), row)];
    }

    method AddSketches(release: string, row: Row) returns (ok: bool)
      requires Valid()
      modifies allDids, crashDids, allDids.repr, crashDids.repr
      ensures ok <==> ReadableRow(row)
      ensures ok ==> Valid() && fresh(Repr() - old(Repr()))
      ensures ok ==> forall r :: allDids.At(r) == if r == release then Merged(old(allDids.At(r)), row.distinctDid)
              else old(allDids.At(r))
      ensures ok ==> forall r :: crashDids.At(r) == if r == release then Merged(old(crashDids.At(r)), row.crashedDid)
              else old(crashDids.At(r))
    {
      ok := allDids.Add(release, row.distinctDid);
      if ok {
        ok := crashDids.Add(release, row.crashedDid);
      }
    }

    method AddRow(release: string, row: Row) returns (ok: bool)
      requires Valid()
      modifies Repr()
      ensures ok <==> ReadableRow(row)
      ensures ok ==> Valid() && fresh(Repr() - old(Repr())) && counters.Keys == old(counters.Keys) + {release}
      ensures ok ==> forall r :: At(r) == if r == release then WithRow(old(At(r)), row) else old(At(r))
    {
      AddCounters(release, row);
      ok := AddSketches(release, row);
    }
  }

  /** Folds the selected rows by release; an unreadable sketch is an error. */
  method ReleaseHealth(t: Table, keys: seq<RowKey>) returns (r: Result<map<string, Pending>>)
    requires forall k :: k in keys ==> k in t
    ensures r.Ok? <==> Selected(t, keys)
    ensures r.Ok? ==> r.value == FoldRows(t, keys)
  {
    var pending := new HealthTable();
    var i := 0;
    while i < |keys|
      invariant i <= |keys| && Selected(t, keys[..i])
      invariant pending.Valid() && fresh(pending.Repr()) && pending.counters.Keys == FoldRows(t, keys[..i]).Keys
      invariant forall x :: pending.At(x) == PendingAt(FoldRows(t, keys[..i]), x)
    {
      assert keys[..i + 1][..i] == keys[..i] && keys[i] in keys;
      var ok := pending.AddRow(keys[i].release, t[keys[i]]);
      if !ok {
        return Err("sketch");
      }
      forall x ensures pending.At(x) == PendingAt(FoldRows(t, keys[..i + 1]), x) {
        FoldRowsOneMore(t, keys[..i + 1], x);
      }
      i := i + 1;
    }
    assert keys[..i] == keys;
    var out := map x | x in pending.counters :: pending.At(x);
    SameAccumulators(out, FoldRows(t, keys));
    r := Ok(out);
  }

  lemma FoldRowsOneMore(t: Table, keys: seq<RowKey>, r: string)
    requires Selected(t, keys) && keys != []
    ensures var k, before := keys[|keys| - 1], FoldRows(t, keys[..|keys| - 1]);
            PendingAt(FoldRows(t, keys), r) == if k.release == r then WithRow(PendingAt(before, r), RowAt(t, k))
                else PendingAt(before, r)
    ensures FoldRows(t, keys).Keys == FoldRows(t, keys[..|keys| - 1]).Keys + {keys[|keys| - 1].release}
  {
  }

  /** A release is reported exactly when it has a selected row. */
  lemma {:induction false} ReportedReleases(t: Table, keys: seq<RowKey>)
    requires Selected(t, keys)
    ensures FoldRows(t, keys).Keys == set k | k in keys :: k.release
  {
    if keys == [] {
    } else {
      var n := |keys| - 1;
      ReportedReleases(t, keys[..n]);
      FoldRowsOneMore(t, keys, "");
      assert keys == keys[..n] + [keys[n]];
      assert (set k | k in keys :: k.release) == (set k | k in keys[..n] :: k.release) + {keys[n].release};
    }
  }

  /** The four counters of a release are the sums over its selected rows. */
  lemma {:induction false} HealthTotals(t: Table, keys: seq<RowKey>, r: string)
    requires Selected(t, keys)
    ensures var p := PendingAt(FoldRows(t, keys), r);
            && p.total == SumOf(t, keys, r, (row: Row) => row.total)
                && p.crashed == SumOf(t, keys, r, (row: Row) => row.crashed)
            && p.abnormal == SumOf(t, keys, r, (row: Row) => row.abnormal)
                && p.errored == SumOf(t, keys, r, (row: Row) => row.errored)
  {
    if keys == [] {
    } else {
      HealthTotals(t, keys[..|keys| - 1], r);
      FoldRowsOneMore(t, keys, r);
    }
  }

  /**
   On a table that deliveries built, a release's merged sketches are the sketches of the union of the
   did sets of its selected rows.
   */
  lemma {:induction false} HealthIsUnion(ds: seq<Delivery>, keys: seq<RowKey>, r: string, digest: Digest)
    requires forall k :: k in keys ==> k in DeliverAll(ds, digest)
    ensures Folded(PendingAt(FoldRows(DeliverAll(ds, digest), keys), r), ds, keys, r, digest)
  {
    var t := DeliverAll(ds, digest);
    if keys == [] {
      NothingFolded(ds, r, digest);
    } else {
      var n := |keys| - 1;
      HealthIsUnion(ds, keys[..n], r, digest);
      FoldRowsOneMore(t, keys, r);
      BlobsAreSketches(ds, keys[n], digest);
      FoldOneMore(PendingAt(FoldRows(t, keys[..n]), r), RowAt(t, keys[n]), ds, keys, n, r, digest);
      assert keys[..n + 1] == keys;
    }
  }
}
