/**
 Evaluating a stored event against the project's alert rules: filters, triggers and the quiet period between two
 deliveries for the same rule and issue. One worker runs the evaluations, retries included, one after the other.
 */
module AlertDelivery {
  import opened Wrappers

  /** Nanoseconds. */
  const MINUTE := 60_000_000_000

  datatype Rule = Rule(id: string, trigger: string, enabled: bool, environments: seq<string>, releases: seq<string>,
      levels: seq<string>,
                       thresholdCount: int, quietMinutes: int)

  datatype Signal = Signal(issue: string, isNew: bool, isRegression: bool, environment: string, release: string,
      level: string)

  /** strings.EqualFold. */
  type Fold = (string, string) -> bool

  // ---- matching ----

  predicate Listed(fold: Fold, list: seq<string>, v: string) { exists e :: e in list && fold(e, v) }

  method ContainsFold(fold: Fold, list: seq<string>, v: string) returns (found: bool)
    ensures found == Listed(fold, list, v)
  {
    for i := 0 to |list|
      invariant forall k :: 0 <= k < i ==> !fold(list[k], v)
    {
      if fold(list[i], v) {
        return true;
      }
    }
    found := false;
  }

  /** An empty list lets everything through. */
  predicate Passes(fold: Fold, list: seq<string>, v: string) { list == [] || Listed(fold, list, v) }

  predicate MatchesFilters(fold: Fold, r: Rule, s: Signal) {
    Passes(fold, r.environments, s.environment) && Passes(fold, r.releases, s.release)
        && Passes(fold, r.levels, s.level)
  }

  predicate MatchesTrigger(r: Rule, s: Signal, windowCount: nat) {
    if r.trigger == "new_issue" then s.isNew
    else if r.trigger == "regression" then s.isRegression
    else if r.trigger == "event_count" then windowCount >= (if r.thresholdCount <= 0 then 1 else r.thresholdCount)
    else false
  }

  predicate ShouldSend(fold: Fold, r: Rule, s: Signal, windowCount: nat) {
    r.enabled && MatchesFilters(fold, r, s) && MatchesTrigger(r, s, windowCount)
  }

  // ---- the dedupe table and the log of deliveries ----

  type Pair = (string, string)

  /** A delivery that is no test, with the quiet period as its evaluation read it. */
  datatype Send = Send(pair: Pair, time: int, quietMinutes: int)

  datatype Touch = Touch(pair: Pair, time: int)

  /** `dedupe` is the table; `sends` and `touches` list what happened, oldest first. */
  datatype Db = Db(dedupe: map<Pair, int>, sends: seq<Send>, touches: seq<Touch>)

  /**
   What one rule reads: the window count, None when that query fails, and the clock at its check, its delivery and its
   touch.
   */
  datatype Reading = Reading(count: Option<nat>, check: int, send: int, touch: int)

  /** checkDedupe: sent less than the quiet period ago. */
  predicate Deduped(dedupe: map<Pair, int>, pair: Pair, quietMinutes: int, now: int) {
    quietMinutes > 0 && pair in dedupe && now - dedupe[pair] < quietMinutes * MINUTE
  }

  predicate CountFails(r: Rule, rd: Reading) { r.trigger == "event_count" && rd.count.None? }

  function CountOf(r: Rule, rd: Reading): nat {
    if r.trigger == "event_count" && rd.count.Some? then rd.count.value else 0
  }

  predicate Sends(fold: Fold, db: Db, r: Rule, s: Signal, rd: Reading) {
    ShouldSend(fold, r, s, CountOf(r, rd)) && !Deduped(db.dedupe, (r.id, s.issue), r.quietMinutes, rd.check)
  }

  function Delivered(db: Db, r: Rule, s: Signal, rd: Reading): Db {
    var pair := (r.id, s.issue);
    Db(db.dedupe[pair := rd.touch], db.sends + [Send(pair, rd.send, r.quietMinutes)],
        db.touches + [Touch(pair, rd.touch)])
  }

  /** One attempt of one job: the rules it loaded and what it read for each. */
  datatype Evaluation = Evaluation(rules: seq<Rule>, signal: Signal, rds: seq<Reading>)

  /**
   The tables after the first `n` rules; a failed count ends the evaluation with an error, to be retried from the first
   rule.
   */
  function Evaluated(fold: Fold, db: Db, e: Evaluation, n: nat): (r: (Db, bool))
    requires |e.rds| == |e.rules| && n <= |e.rules|
  {
    if n == 0 then (db, true) else
    var before, r, rd := Evaluated(fold, db, e, n - 1), e.rules[n - 1], e.rds[n - 1];
    if !before.1 || CountFails(r, rd) then (before.0, false)
    else (if Sends(fold, before.0, r, e.signal, rd) then Delivered(before.0, r, e.signal, rd) else before.0, true)
  }

  lemma {:induction false} ErrorStays(fold: Fold, db: Db, e: Evaluation, n: nat, m: nat)
    requires |e.rds| == |e.rules| && n <= m <= |e.rules| && !Evaluated(fold, db, e, n).1
    ensures Evaluated(fold, db, e, m) == Evaluated(fold, db, e, n)
    decreases m
  {
    if n < m {
      ErrorStays(fold, db, e, n, m - 1);
    }
  }

  class AlertStore {
    var dedupe: map<Pair, int>
    var sends: seq<Send>
    var touches: seq<Touch>

    function Now(): Db
      reads this
    {
      Db(dedupe, sends, touches)
    }

    method Matches(fold: Fold, r: Rule, s: Signal) returns (ok: bool)
      ensures ok == MatchesFilters(fold, r, s)
    {
      if |r.environments| > 0 {
        var found := ContainsFold(fold, r.environments, s.environment);
        if !found {
          return false;
        }
      }
      if |r.releases| > 0 {
        var found := ContainsFold(fold, r.releases, s.release);
        if !found {
          return false;
        }
      }
      if |r.levels| > 0 {
        var found := ContainsFold(fold, r.levels, s.level);
        if !found {
          return false;
        }
      }
      ok := true;
    }

    method EvaluateAndDeliver(fold: Fold, e: Evaluation) returns (ok: bool)
      requires |e.rds| == |e.rules|
      modifies this
      ensures (Now(), ok) == Evaluated(fold, old(Now()), e, |e.rules|)
    {
      var i := 0;
      while i < |e.rules|
        invariant i <= |e.rules| && (Now(), true) == Evaluated(fold, old(Now()), e, i)
      {
        var r, rd := e.rules[i], e.rds[i];
        var windowCount := 0;
        if r.trigger == "event_count" {
          if rd.count.None? {
            ErrorStays(fold, old(Now()), e, i + 1, |e.rules|);
            return false;
          }
          windowCount := rd.count.value;
        }
        i := i + 1;
        var matches := Matches(fold, r, e.signal);
        if !(r.enabled && matches && MatchesTrigger(r, e.signal, windowCount)) {
          continue;
        }
        var pair := (r.id, e.signal.issue);
        if Deduped(dedupe, pair, r.quietMinutes, rd.check) {
          continue;
        }
        sends := sends + [Send(pair, rd.send, r.quietMinutes)];
        dedupe, touches := dedupe[pair := rd.touch], touches + [Touch(pair, rd.touch)];
      }
      ok := true;
    }
  }

  // ---- every history of one worker ----

  /** The clock after the first `n` readings. */
  function Clock(since: int, rds: seq<Reading>, n: nat): int
    requires n <= |rds|
  {
    if n == 0 then since else rds[n - 1].touch
  }

  /** The clock only moves forward, from `since`. */
  predicate Forward(since: int, rds: seq<Reading>) {
    forall n :: 0 <= n < |rds| ==> Clock(since, rds, n) <= rds[n].check <= rds[n].send <= rds[n].touch
  }

  const EMPTY := Db(map[], [], [])

  ghost predicate IsHistory(es: seq<Evaluation>) {
    es == [] || (var e := es[|es| - 1];
                 IsHistory(es[..|es| - 1]) && |e.rds| == |e.rules| && Forward(ClockAfter(es[..|es| - 1]), e.rds))
  }

  function ClockAfter(es: seq<Evaluation>): int {
    if es == [] then 0 else Clock(ClockAfter(es[..|es| - 1]), es[|es| - 1].rds, |es[|es| - 1].rds|)
  }

  ghost function After(fold: Fold, es: seq<Evaluation>): Db
    requires IsHistory(es)
  {
    if es == [] then EMPTY else
    var e := es[|es| - 1];
    Evaluated(fold, After(fold, es[..|es| - 1]), e, |e.rules|).0
  }

  /** The table holds each pair's last touch. */
  predicate TableOk(db: Db, now: int) {
    && (forall t :: t in db.touches ==> t.pair in db.dedupe && t.time <= db.dedupe[t.pair])
    && (forall p :: p in db.dedupe ==> db.dedupe[p] <= now && Touch(p, db.dedupe[p]) in db.touches)
  }

  predicate SendsOk(db: Db, now: int) {
    && (forall s :: s in db.sends ==> s.pair in db.dedupe && s.time <= db.dedupe[s.pair])
    && (forall i, j :: 0 <= i < j < |db.sends| && db.sends[i].pair == db.sends[j].pair ==>
          db.sends[j].time - db.sends[i].time >= db.sends[j].quietMinutes * MINUTE)
  }

  predicate DbOk(db: Db, now: int) { TableOk(db, now) && SendsOk(db, now) }

  lemma {:induction false} DeliveredKeepsOk(fold: Fold, db: Db, r: Rule, s: Signal, rd: Reading, since: int)
    requires DbOk(db, since) && since <= rd.check <= rd.send <= rd.touch && Sends(fold, db, r, s, rd)
    ensures DbOk(Delivered(db, r, s, rd), rd.touch)
  {
    var db' := Delivered(db, r, s, rd);
    var pair := (r.id, s.issue);
    assert TableOk(db', rd.touch) by {
      assert db'.touches[|db.touches|] == Touch(pair, rd.touch);
      forall p | p in db'.dedupe ensures Touch(p, db'.dedupe[p]) in db'.touches {
        if p != pair {
          assert Touch(p, db.dedupe[p]) in db.touches;
        }
      }
    }
    forall i, j | 0 <= i < j < |db'.sends| && db'.sends[i].pair == db'.sends[j].pair
      ensures db'.sends[j].time - db'.sends[i].time >= db'.sends[j].quietMinutes * MINUTE
    {
      if j == |db.sends| {
        assert db'.sends[i] == db.sends[i] && db.sends[i] in db.sends;
        assert db.sends[i].time <= db.dedupe[pair] <= since;
        assert r.quietMinutes <= 0 ==> r.quietMinutes * MINUTE <= 0;
      }
    }
  }

  lemma {:induction false} EvaluatedKeepsOk(fold: Fold, db: Db, e: Evaluation, n: nat, since: int)
    requires |e.rds| == |e.rules| && n <= |e.rules| && DbOk(db, since) && Forward(since, e.rds)
    ensures DbOk(Evaluated(fold, db, e, n).0, Clock(since, e.rds, n))
  {
    if n == 0 {
    } else {
      EvaluatedKeepsOk(fold, db, e, n - 1, since);
      var before, r, rd := Evaluated(fold, db, e, n - 1), e.rules[n - 1], e.rds[n - 1];
      if before.1 && !CountFails(r, rd) && Sends(fold, before.0, r, e.signal, rd) {
        DeliveredKeepsOk(fold, before.0, r, e.signal, rd, Clock(since, e.rds, n - 1));
      }
    }
  }

  lemma {:induction false} HistoryKeepsOk(fold: Fold, es: seq<Evaluation>)
    requires IsHistory(es)
    ensures DbOk(After(fold, es), ClockAfter(es))
  {
    if es == [] {
    } else {
      var e, before := es[|es| - 1], es[..|es| - 1];
      HistoryKeepsOk(fold, before);
      EvaluatedKeepsOk(fold, After(fold, before), e, |e.rules|, ClockAfter(before));
    }
  }

  /** Two deliveries for one rule and issue are at least the quiet minutes apart that the second evaluation read. */
  lemma {:induction false} QuietPeriodsHold(fold: Fold, es: seq<Evaluation>, i: nat, j: nat)
    requires IsHistory(es)
    requires i < j < |After(fold, es).sends| && After(fold, es).sends[i].pair == After(fold, es).sends[j].pair
    ensures var sends := After(fold, es).sends; sends[j].time - sends[i].time >= sends[j].quietMinutes * 60_000_000_000
  {
    HistoryKeepsOk(fold, es);
  }

  /** No touch of the pair lies inside the quiet period before `now`. */
  predicate Quiet(touches: seq<Touch>, pair: Pair, quietMinutes: int, now: int) {
    forall t :: t in touches && t.pair == pair ==> now - t.time >= quietMinutes * 60_000_000_000
  }

  /**
   An enabled rule fires on a signal that each of its lists names, up to case, unless it is empty: a new issue, a
   regression, or as many events as its threshold, which is at least one.
   */
  predicate Fires(fold: Fold, r: Rule, s: Signal, rd: Reading) {
    && r.enabled
    && (r.environments != [] ==> exists e :: e in r.environments && fold(e, s.environment))
    && (r.releases != [] ==> exists e :: e in r.releases && fold(e, s.release))
    && (r.levels != [] ==> exists e :: e in r.levels && fold(e, s.level))
    && ((r.trigger == "new_issue" && s.isNew)
        || (r.trigger == "regression" && s.isRegression)
        || (r.trigger == "event_count" && rd.count.Some? && rd.count.value >= 1 && rd.count.value >= r.thresholdCount))
  }

  /**
   In any history, a rule an evaluation reaches is delivered exactly when it matches and its quiet period holds no
   earlier touch.
   */
  lemma {:induction false} SentExactlyWhen(fold: Fold, es: seq<Evaluation>, e: Evaluation, n: nat)
    requires IsHistory(es) && |e.rds| == |e.rules| && Forward(ClockAfter(es), e.rds)
    requires n < |e.rules| && Evaluated(fold, After(fold, es), e, n).1 && !CountFails(e.rules[n], e.rds[n])
    ensures var before, after := Evaluated(fold, After(fold, es), e, n).0, Evaluated(fold, After(fold, es), e, n + 1).0;
            var r, rd := e.rules[n], e.rds[n];
            var pair := (r.id, e.signal.issue);
            if Fires(fold, r, e.signal, rd)
                && (r.quietMinutes > 0 ==> Quiet(before.touches, pair, r.quietMinutes, rd.check))
            then after.sends == before.sends + [Send(pair, rd.send, r.quietMinutes)]
                && after.touches == before.touches + [Touch(pair, rd.touch)]
            else after == before
  {
    HistoryKeepsOk(fold, es);
    EvaluatedKeepsOk(fold, After(fold, es), e, n, ClockAfter(es));
    var before, pair := Evaluated(fold, After(fold, es), e, n).0, (e.rules[n].id, e.signal.issue);
    if pair in before.dedupe {
      assert Touch(pair, before.dedupe[pair]) in before.touches;
    }
  }
}
