/** The jobs table: claims, retries with exponential backoff, and workers that may die at any point. */
module JobQueue {
  import opened Powers
  import opened Wrappers

  type JobId = nat

  type WorkerId = nat

  /** Nanoseconds. */
  const MINUTE := 60_000_000_000

  datatype Status = Pending | Running | Done | Failed

  datatype Job = Job(kind: string, runAt: int, status: Status, attempts: nat, max: nat)

  /** time.Duration(1 << (attempts - 1)) * time.Minute in int64. */
  function Backoff(attempts: nat): int
    requires attempts >= 1
  {
    Wrap64(Wrap64(Pow2(attempts - 1)) * MINUTE)
  }

  lemma Pow2Of28()
    ensures Pow2(28) == 0x1000_0000
  {
    Pow2Adds(14, 14);
    Pow2Adds(7, 7);
    assert Pow2(7) == 128;
  }

  /** The delay is 2^(n-1) minutes exactly for the first 28 attempts; after that the duration overflows. */
  lemma BackoffIsExactWhen(attempts: nat)
    requires attempts >= 1
    ensures Backoff(attempts) == Pow2(attempts - 1) * 60_000_000_000 <==> attempts <= 28
  {
    Pow2Of28();
    if attempts <= 28 {
      Pow2Monotone(attempts - 1, 27);
    } else {
      Pow2Monotone(28, attempts - 1);
      assert Pow2(attempts - 1) * MINUTE >= 0x1000_0000 * MINUTE;
    }
  }

  /**
   Every retry of a job lies in the future exactly when it has at most 29 attempts: the 29th delay comes out negative.
   */
  lemma {:induction false} RetriesAreLaterExactlyWhen(max: nat)
    ensures (forall a :: 1 <= a < max ==> Backoff(a) > 0) <==> max <= 29
  {
    if max <= 29 {
      forall a | 1 <= a < max ensures Backoff(a) > 0 {
        BackoffIsExactWhen(a);
        Pow2Monotone(0, a - 1);
        assert Pow2(a - 1) * MINUTE >= 1;
      }
    } else {
      Pow2Of28();
      assert Backoff(29) == Wrap64(0x1000_0000 * MINUTE) < 0;
    }
  }

  // ---- one job ----

  function Claimed(j: Job): Job { j.(status := Running, attempts := j.attempts + 1) }

  /** The worker's own copy of the job it runs. */
  datatype Claim = Claim(id: JobId, attempts: nat, max: nat)

  /** What execute records: the UPDATE goes by id alone and decides on the worker's copy of the counters. */
  function Written(row: Job, c: Claim, ok: bool, now: int): Job
    requires c.attempts >= 1
  {
    if ok then row.(status := Done)
    else if c.attempts >= c.max then row.(status := Failed)
    else row.(status := Pending, runAt := now + Backoff(c.attempts))
  }

  /** pending leaves an attempt, running has used one and no more than allowed. */
  predicate Fits(j: Job) {
    && j.max >= 1 && j.attempts <= j.max
    && (j.status.Pending? ==> j.attempts < j.max)
    && (!j.status.Pending? ==> 1 <= j.attempts)
  }

  predicate Terminal(j: Job) { j.status.Done? || j.status.Failed? }

  // ---- any number of workers ----

  /** `starts` holds the instants at which each job was claimed, `outcomes` what its finished runs reported. */
  datatype State = State(clock: int, jobs: map<JobId, Job>, workers: map<WorkerId, Claim>, starts: map<JobId, seq<int>>,
                         outcomes: map<JobId, seq<bool>>)

  datatype Step = Tick(t: int) | Enqueue(id: JobId, job: Job) | Take(worker: WorkerId, id: JobId)
                | Finish(worker: WorkerId, ok: bool) | Abandon(worker: WorkerId)

  /**
   A claim takes some due job that no other claim locks; a worker may die, or fail to record, and leave its job
   running.
   */
  predicate NextBy(s: State, step: Step, s': State) {
    match step
    case Tick(t) => t >= s.clock && s' == s.(clock := t)
    case Enqueue(id, job) =>
      && id !in s.jobs && job.status.Pending? && job.attempts == 0 && job.max >= 1
      && s' == s.(jobs := s.jobs[id := job], starts := s.starts[id := []], outcomes := s.outcomes[id := []])
    case Take(w, id) =>
      && w !in s.workers && id in s.jobs && id in s.starts && s.jobs[id].status.Pending? && s.jobs[id].runAt <= s.clock
      && var j := Claimed(s.jobs[id]);
         s' == s.(jobs := s.jobs[id := j], workers := s.workers[w := Claim(id, j.attempts, j.max)],
                  starts := s.starts[id := s.starts[id] + [s.clock]])
    case Finish(w, ok) =>
      && w in s.workers && s.workers[w].id in s.jobs && s.workers[w].id in s.outcomes && s.workers[w].attempts >= 1
      && var c := s.workers[w];
         s' == s.(jobs := s.jobs[c.id := Written(s.jobs[c.id], c, ok, s.clock)], workers := s.workers - {w},
                  outcomes := s.outcomes[c.id := s.outcomes[c.id] + [ok]])
    case Abandon(w) => w in s.workers && s' == s.(workers := s.workers - {w})
  }

  ghost predicate Next(s: State, s': State) { exists step :: NextBy(s, step, s') }

  ghost predicate IsRun(ss: seq<State>) {
    && |ss| > 0 && ss[0].jobs == map[] && ss[0].workers == map[] && ss[0].starts == map[] && ss[0].outcomes == map[]
    && forall i :: 0 <= i < |ss| - 1 ==> Next(ss[i], ss[i + 1])
  }

  /** Successive attempts are at least the backoff apart, and a retry waits for it. */
  predicate Spaced(j: Job, starts: seq<int>) {
    && |starts| == j.attempts
    && (forall i :: 1 <= i < |starts| ==> starts[i] >= starts[i - 1] + Backoff(i))
    && (j.status.Pending? && |starts| > 0 ==> j.runAt >= starts[|starts| - 1] + Backoff(|starts|))
  }

  predicate JobOk(s: State, id: JobId) {
    id in s.jobs ==> id in s.starts && Fits(s.jobs[id]) && Spaced(s.jobs[id], s.starts[id])
                     && (|s.starts[id]| > 0 ==> s.starts[id][|s.starts[id]| - 1] <= s.clock)
  }

  /** A held job is running and the holder's copy is current. */
  predicate HeldOk(s: State, w: WorkerId) {
    w in s.workers ==>
      var c := s.workers[w];
      c.id in s.jobs && s.jobs[c.id].status.Running? && c.attempts == s.jobs[c.id].attempts && c.max == s.jobs[c.id].max
  }

  ghost predicate Exclusive(s: State) {
    forall v, w :: v in s.workers && w in s.workers && v != w ==> s.workers[v].id != s.workers[w].id
  }

  ghost predicate StateOk(s: State) { (forall id :: JobOk(s, id)) && (forall w :: HeldOk(s, w)) && Exclusive(s) }

  lemma {:induction false} JobStaysOk(s: State, step: Step, s': State, id: JobId)
    requires StateOk(s) && NextBy(s, step, s')
    ensures JobOk(s', id)
    ensures id in s.jobs ==> id in s'.jobs && s'.jobs[id].max == s.jobs[id].max
    ensures id in s.jobs && Terminal(s.jobs[id]) ==> id in s'.jobs && s'.jobs[id] == s.jobs[id]
  {
    assert JobOk(s, id);
    if step.Finish? {
      assert HeldOk(s, step.worker);
    }
  }

  lemma {:induction false} HeldStaysOk(s: State, step: Step, s': State, w: WorkerId)
    requires StateOk(s) && NextBy(s, step, s')
    ensures HeldOk(s', w)
  {
    assert HeldOk(s, w);
  }

  lemma {:induction false} StepKeepsOk(s: State, step: Step, s': State)
    requires StateOk(s) && NextBy(s, step, s')
    ensures StateOk(s')
  {
    forall id ensures JobOk(s', id) {
      JobStaysOk(s, step, s', id);
    }
    forall w ensures HeldOk(s', w) {
      HeldStaysOk(s, step, s', w);
    }
    forall v, w | v in s'.workers && w in s'.workers && v != w ensures s'.workers[v].id != s'.workers[w].id {
      assert HeldOk(s, v) && HeldOk(s, w);
    }
  }

  lemma {:induction false} RunKeepsOk(ss: seq<State>, n: nat)
    requires IsRun(ss) && n < |ss|
    ensures StateOk(ss[n])
  {
    if n == 0 {
    } else {
      RunKeepsOk(ss, n - 1);
      assert Next(ss[n - 1], ss[n - 1 + 1]);
      var step :| NextBy(ss[n - 1], step, ss[n]);
      StepKeepsOk(ss[n - 1], step, ss[n]);
    }
  }

  /** In every reachable state each job is in the hands of at most one worker and its counters fit its status. */
  lemma {:induction false} ClaimsAreExclusive(ss: seq<State>, n: nat)
    requires IsRun(ss) && n < |ss|
    ensures forall v, w :: v in ss[n].workers && w in ss[n].workers && ss[n].workers[v].id == ss[n].workers[w].id ==>
            v == w
    ensures forall id :: id in ss[n].jobs ==> Fits(ss[n].jobs[id])
  {
    RunKeepsOk(ss, n);
    forall id | id in ss[n].jobs ensures Fits(ss[n].jobs[id]) {
      assert JobOk(ss[n], id);
    }
  }

  /** Done and failed are final: nothing about such a row ever changes. */
  lemma {:induction false} TerminalIsFinal(ss: seq<State>, i: nat, n: nat, id: JobId)
    requires IsRun(ss) && i <= n < |ss| && id in ss[i].jobs && Terminal(ss[i].jobs[id])
    ensures id in ss[n].jobs && ss[n].jobs[id] == ss[i].jobs[id]
    decreases n
  {
    if i < n {
      TerminalIsFinal(ss, i, n - 1, id);
      RunKeepsOk(ss, n - 1);
      assert Next(ss[n - 1], ss[n - 1 + 1]);
      var step :| NextBy(ss[n - 1], step, ss[n]);
      JobStaysOk(ss[n - 1], step, ss[n], id);
    }
  }

  lemma {:induction false} StartsSpread(starts: seq<int>, n: nat)
    requires 1 <= n <= |starts| && n <= 29
    requires forall i :: 1 <= i < |starts| ==> starts[i] >= starts[i - 1] + Backoff(i)
    ensures starts[n - 1] >= starts[0] + (Pow2(n - 1) - 1) * MINUTE
  {
    if n > 1 {
      StartsSpread(starts, n - 1);
      BackoffIsExactWhen(n - 1);
      assert Pow2(n - 1) == 2 * Pow2(n - 2);
    }
  }

  /**
   A job is started at most max times; attempt n no sooner than 2^(n-1) - 1 minutes after the first, as long as n <=
   29.
   */
  lemma {:induction false} AttemptsBackOff(ss: seq<State>, n: nat, id: JobId, k: nat)
    requires IsRun(ss) && n < |ss| && id in ss[n].jobs && id in ss[n].starts
    ensures |ss[n].starts[id]| <= ss[n].jobs[id].max
    ensures 1 <= k <= |ss[n].starts[id]| && k <= 29 ==>
            ss[n].starts[id][k - 1] >= ss[n].starts[id][0] + (Pow2(k - 1) - 1) * 60_000_000_000
  {
    RunKeepsOk(ss, n);
    assert JobOk(ss[n], id);
    if 1 <= k <= |ss[n].starts[id]| && k <= 29 {
      StartsSpread(ss[n].starts[id], k);
    }
  }

  // ---- what a row's status says about its runs ----

  /** Only the last run can have succeeded, and it has exactly in a done row; a failed one used up its attempts. */
  predicate OutcomesFit(j: Job, outcomes: seq<bool>) {
    && (forall i :: 0 <= i < |outcomes| - 1 ==> !outcomes[i])
    && (j.status.Done? <==> outcomes != [] && outcomes[|outcomes| - 1])
    && (j.status.Failed? ==> j.attempts == j.max && outcomes != [])
  }

  predicate Told(s: State, id: JobId) { id in s.jobs ==> id in s.outcomes && OutcomesFit(s.jobs[id], s.outcomes[id]) }

  lemma {:induction false} StepKeepsTold(s: State, step: Step, s': State, id: JobId)
    requires StateOk(s) && Told(s, id) && NextBy(s, step, s')
    ensures Told(s', id)
  {
    assert JobOk(s, id);
    if step.Finish? {
      assert HeldOk(s, step.worker);
    }
  }

  lemma {:induction false} RunKeepsTold(ss: seq<State>, n: nat, id: JobId)
    requires IsRun(ss) && n < |ss|
    ensures Told(ss[n], id)
  {
    if n == 0 {
    } else {
      RunKeepsTold(ss, n - 1, id);
      RunKeepsOk(ss, n - 1);
      assert Next(ss[n - 1], ss[n - 1 + 1]);
      var step :| NextBy(ss[n - 1], step, ss[n]);
      StepKeepsTold(ss[n - 1], step, ss[n], id);
    }
  }

  /**
   In every reachable state a job is done exactly when one of its runs reported success, and failed only when it used up
   its attempts and its last report was a failure.
   */
  lemma {:induction false} StatusTellsOutcome(ss: seq<State>, n: nat, id: JobId)
    requires IsRun(ss) && n < |ss| && id in ss[n].jobs
    ensures id in ss[n].outcomes
    ensures ss[n].jobs[id].status.Done? <==> true in ss[n].outcomes[id]
    ensures ss[n].jobs[id].status.Failed? ==>
              && ss[n].jobs[id].attempts == ss[n].jobs[id].max && ss[n].outcomes[id] != []
              && !ss[n].outcomes[id][|ss[n].outcomes[id]| - 1]
  {
    RunKeepsTold(ss, n, id);
  }

  /** And a report decides: success is done, a failure of the last attempt failed, any other leaves the job pending. */
  lemma {:induction false} ReportDecides(ss: seq<State>, n: nat, w: WorkerId, ok: bool)
    requires IsRun(ss) && n + 1 < |ss| && NextBy(ss[n], Finish(w, ok), ss[n + 1])
    ensures var id := ss[n].workers[w].id;
            var before, after := ss[n].jobs[id], ss[n + 1].jobs[id];
            && (after.status.Done? <==> ok)
            && (after.status.Failed? <==> !ok && before.attempts == before.max)
            && (after.status.Pending? <==> !ok && before.attempts < before.max)
            && after.attempts == before.attempts && after.max == before.max
  {
    RunKeepsOk(ss, n);
    assert HeldOk(ss[n], w);
    assert JobOk(ss[n], ss[n].workers[w].id);
  }

  // ---- draining the queue at one instant ----

  /** What a handler did: whether it succeeded and which jobs it enqueued. */
  datatype Outcome = Outcome(ok: bool, later: seq<Job>)

  type Handler = (JobId, nat) -> Outcome

  predicate IsDue(j: Job, now: int) { j.status.Pending? && j.runAt <= now }

  function Due(jobs: map<JobId, Job>, now: int): set<JobId> { set id | id in jobs && IsDue(jobs[id], now) }

  /** Claimed, run and recorded. */
  function Ran(j: Job, handler: Handler, id: JobId, now: int): Job {
    Written(Claimed(j), Claim(id, j.attempts + 1, j.max), handler(id, j.attempts + 1).ok, now)
  }

  /** Known jobs, by the instant they became due. */
  predicate ByRunAt(jobs: map<JobId, Job>, order: seq<JobId>) {
    && (forall i :: 0 <= i < |order| ==> order[i] in jobs)
    && (forall i, j :: 0 <= i < j < |order| ==> order[i] != order[j] && jobs[order[i]].runAt <= jobs[order[j]].runAt)
  }

  /** New jobs lie in the future, as the rescheduling handlers enqueue them. */
  ghost predicate EnqueuesLater(handler: Handler, now: int) {
    forall id, n, k :: 0 <= k < |handler(id, n).later| ==> handler(id, n).later[k].runAt > now
  }

  predicate Bounded(j: Job) { Fits(j) && j.max <= 29 }

  lemma {:induction false} RanIsNotDue(j: Job, handler: Handler, id: JobId, now: int)
    requires Bounded(j) && IsDue(j, now)
    ensures !IsDue(Ran(j, handler, id, now), now) && Bounded(Ran(j, handler, id, now))
  {
    var attempts := j.attempts + 1;
    RetriesAreLaterExactlyWhen(j.max);
    assert attempts < j.max ==> Backoff(attempts) > 0;
  }

  /** What a due job's one run made of it. */
  predicate EndedAs(j: Job, handler: Handler, id: JobId, now: int, after: Job) {
    var ok := handler(id, j.attempts + 1).ok;
    && after.attempts == j.attempts + 1 && after.max == j.max && after.kind == j.kind
    && (after.status.Done? <==> ok)
    && (after.status.Failed? <==> !ok && j.attempts + 1 == j.max)
    && (after.status.Pending? <==> !ok && j.attempts + 1 < j.max)
    && (after.status.Pending? ==> after.runAt > now)
  }

  lemma {:induction false} RanEnds(j: Job, handler: Handler, id: JobId, now: int)
    requires Bounded(j) && IsDue(j, now)
    ensures EndedAs(j, handler, id, now, Ran(j, handler, id, now))
  {
    RetriesAreLaterExactlyWhen(j.max);
    assert j.attempts + 1 < j.max ==> Backoff(j.attempts + 1) > 0;
  }

  lemma {:induction false} EarliestExists(jobs: map<JobId, Job>, due: set<JobId>)
    requires due != {} && due <= jobs.Keys
    ensures exists id :: id in due && forall k :: k in due ==> jobs[id].runAt <= jobs[k].runAt
    decreases |due|
  {
    var x: JobId :| x in due;
    if due != {x} {
      EarliestExists(jobs, due - {x});
      var y: JobId :| y in due - {x} && forall k :: k in due - {x} ==> jobs[y].runAt <= jobs[k].runAt;
      var best := if jobs[x].runAt <= jobs[y].runAt then x else y;
      forall k | k in due ensures jobs[best].runAt <= jobs[k].runAt {
        assert k == x || k in due - {x};
      }
    }
  }

  /** The table once the jobs of `order` have run: the others are as before and what is new is for later. */
  ghost predicate Drained(handler: Handler, now: int, jobs0: map<JobId, Job>, jobs: map<JobId, Job>,
      order: seq<JobId>) {
    && jobs0.Keys <= jobs.Keys
    && (forall id :: id in jobs0 ==> jobs[id] == if id in order then Ran(jobs0[id], handler, id, now) else jobs0[id])
    && (forall id :: id in jobs && id !in jobs0 ==> jobs[id].runAt > now)
  }

  /** No due job left behind is earlier than one that ran. */
  predicate EarliestFirst(jobs0: map<JobId, Job>, due: set<JobId>, order: seq<JobId>) {
    && due <= jobs0.Keys && Elements(order) <= due && ByRunAt(jobs0, order)
    && forall i, k :: 0 <= i < |order| && k in due && k !in order ==> jobs0[order[i]].runAt <= jobs0[k].runAt
  }

  lemma {:induction false} DueRemains(handler: Handler, now: int, jobs0: map<JobId, Job>, jobs: map<JobId, Job>,
      order: seq<JobId>)
    requires Drained(handler, now, jobs0, jobs, order) && Elements(order) <= Due(jobs0, now)
    requires forall id :: id in jobs0 ==> Bounded(jobs0[id])
    ensures Due(jobs, now) == Due(jobs0, now) - Elements(order)
  {
    forall id ensures id in Due(jobs, now) <==> id in Due(jobs0, now) - Elements(order) {
      if id in jobs0 && id in order {
        assert id in Elements(order);
        RanIsNotDue(jobs0[id], handler, id, now);
      }
    }
  }

  lemma {:induction false} OneMoreRan(handler: Handler, now: int, jobs0: map<JobId, Job>, jobs: map<JobId, Job>,
      jobs': map<JobId, Job>,
                                      order: seq<JobId>, id: JobId)
    requires Drained(handler, now, jobs0, jobs, order) && EnqueuesLater(handler, now)
    requires id in jobs0 && id !in order
    requires jobs.Keys <= jobs'.Keys && jobs'[id] == Ran(jobs[id], handler, id, now)
    requires forall k :: k in jobs && k != id ==> jobs'[k] == jobs[k]
    requires forall k :: k in jobs' && k !in jobs ==> jobs'[k] in handler(id, jobs[id].attempts + 1).later
    ensures Drained(handler, now, jobs0, jobs', order + [id])
  {
  }

  lemma {:induction false} StillEarliestFirst(jobs0: map<JobId, Job>, due: set<JobId>, order: seq<JobId>, id: JobId)
    requires EarliestFirst(jobs0, due, order) && id in due - Elements(order)
    requires forall k :: k in due - Elements(order) ==> jobs0[id].runAt <= jobs0[k].runAt
    ensures EarliestFirst(jobs0, due, order + [id])
  {
    assert id !in order;
    forall i, k | 0 <= i < |order + [id]| && k in due && k !in order + [id]
      ensures jobs0[(order + [id])[i]].runAt <= jobs0[k].runAt
    {
      assert k in due - Elements(order);
    }
  }

  class Queue {
    var jobs: map<JobId, Job>
    var nextId: JobId

    ghost predicate Valid()
      reads this
    {
      forall id :: id in jobs ==> id < nextId
    }

    /** The earliest due job, moved to running. */
    method Take(now: int) returns (claimed: Option<JobId>)
      requires Valid()
      modifies this
      ensures Valid() && nextId == old(nextId)
      ensures claimed.None? <==> Due(old(jobs), now) == {}
      ensures claimed.None? ==> jobs == old(jobs)
      ensures claimed.Some? ==>
                var id := claimed.value;
                && id in Due(old(jobs), now)
                    && (forall k :: k in Due(old(jobs), now) ==> old(jobs)[id].runAt <= old(jobs)[k].runAt)
                && jobs == old(jobs)[id := old(jobs)[id].(status := Running, attempts := old(jobs)[id].attempts + 1)]
    {
      var due := Due(jobs, now);
      if due == {} {
        return None;
      }
      EarliestExists(jobs, due);
      var id: JobId :| id in due && forall k :: k in due ==> jobs[id].runAt <= jobs[k].runAt;
      jobs := jobs[id := Claimed(jobs[id])];
      claimed := Some(id);
    }

    method Execute(handler: Handler, id: JobId, now: int)
      requires Valid() && id in jobs && jobs[id].attempts >= 1
      modifies this
      ensures Valid()
      ensures var row := old(jobs)[id];
              && old(jobs).Keys <= jobs.Keys
              && jobs[id] == Written(row, Claim(id, row.attempts, row.max), handler(id, row.attempts).ok, now)
              && (handler(id, row.attempts).ok ==> jobs[id] == row.(status := Done))
              && (!handler(id, row.attempts).ok && row.attempts >= row.max ==> jobs[id] == row.(status := Failed))
              && (!handler(id, row.attempts).ok && row.attempts < row.max ==>
                    jobs[id] == row.(status := Pending, runAt := now + Backoff(row.attempts)))
              && (forall k :: k in old(jobs) && k != id ==> jobs[k] == old(jobs)[k])
              && (forall k :: k in jobs && k !in old(jobs) ==> jobs[k] in handler(id, row.attempts).later)
    {
      var row := jobs[id];
      var outcome := handler(id, row.attempts);
      ghost var jobs0 := jobs;
      for i := 0 to |outcome.later|
        invariant Valid() && jobs0.Keys <= jobs.Keys
        invariant forall k :: k in jobs0 ==> jobs[k] == jobs0[k]
        invariant forall k :: k in jobs && k !in jobs0 ==> jobs[k] in outcome.later
      {
        jobs := jobs[nextId := outcome.later[i]];
        nextId := nextId + 1;
      }
      jobs := jobs[id := Written(row, Claim(id, row.attempts, row.max), outcome.ok, now)];
    }

    /** One round of the loop. */
    method RunOne(handler: Handler, now: int) returns (claimed: Option<JobId>)
      requires Valid()
      modifies this
      ensures Valid()
      ensures claimed.None? ==> Due(old(jobs), now) == {} && jobs == old(jobs)
      ensures claimed.Some? ==>
                var id := claimed.value;
                && id in Due(old(jobs), now)
                    && (forall k :: k in Due(old(jobs), now) ==> old(jobs)[id].runAt <= old(jobs)[k].runAt)
                && old(jobs).Keys <= jobs.Keys && jobs[id] == Ran(old(jobs)[id], handler, id, now)
                && (forall k :: k in old(jobs) && k != id ==> jobs[k] == old(jobs)[k])
                && (forall k :: k in jobs && k !in old(jobs) ==>
                    jobs[k] in handler(id, old(jobs)[id].attempts + 1).later)
    {
      claimed := Take(now);
      if claimed.Some? {
        Execute(handler, claimed.value, now);
      }
    }

    /**
     Ends with nothing due, every initially due job having run exactly once, earliest first, no other old row touched
     and every new row left for later.
     */
    method RunDue(handler: Handler, now: int) returns (ran: nat, ghost order: seq<JobId>)
      requires Valid() && EnqueuesLater(handler, now)
      requires forall id :: id in jobs ==> Bounded(jobs[id])
      modifies this
      ensures Valid() && Due(jobs, now) == {} && ran == |order|
      ensures Elements(order) == Due(old(jobs), now) && ByRunAt(old(jobs), order)
      ensures old(jobs).Keys <= jobs.Keys
      ensures forall id :: id in old(jobs) ==>
                jobs[id] == if id in Due(old(jobs), now) then Ran(old(jobs)[id], handler, id, now) else old(jobs)[id]
      ensures forall id :: id in Due(old(jobs), now) ==> EndedAs(old(jobs)[id], handler, id, now, jobs[id])
      ensures forall id :: id in jobs && id !in old(jobs) ==> jobs[id].runAt > now
    {
      ran, order := 0, [];
      ghost var jobs0 := jobs;
      ghost var due0 := Due(jobs, now);
      while true
        invariant Valid() && ran == |order|
        invariant Drained(handler, now, jobs0, jobs, order) && EarliestFirst(jobs0, due0, order)
        decreases due0 - Elements(order)
      {
        ghost var before := jobs;
        DueRemains(handler, now, jobs0, jobs, order);
        var claimed := RunOne(handler, now);
        if claimed.None? {
          assert due0 == Elements(order) + (due0 - Elements(order));
          forall id | id in due0 ensures EndedAs(jobs0[id], handler, id, now, jobs[id]) {
            RanEnds(jobs0[id], handler, id, now);
          }
          return;
        }
        var id := claimed.value;
        OneMoreRan(handler, now, jobs0, before, jobs, order, id);
        StillEarliestFirst(jobs0, due0, order, id);
        assert id in Elements(order + [id]) && Elements(order) <= Elements(order + [id]);
        order := order + [id];
        ran := ran + 1;
      }
    }
  }
}
