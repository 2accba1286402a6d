/**
 Authenticating ingest requests through a cache of decisions, 30 seconds each way. Any number of calls run
 at once; each reads the clock, looks up under the mutex, queries, and stores under the mutex.
 */
module AuthCache {
  import opened Wrappers

  /** Nanoseconds. */
  const TTL := 30_000_000_000

  const MAX_CACHED := 10_000

  datatype Auth = Auth(project: string, org: string, keyId: nat)

  datatype Entry = Entry(auth: Auth, expiresAt: int)

  /** A row of ingest_keys with its project. */
  datatype KeyRow = KeyRow(project: string, org: string, revoked: bool)

  type Keys = map<nat, KeyRow>

  /** The two maps behind the mutex. */
  datatype Cache = Cache(entries: map<string, Entry>, neg: map<string, int>)

  const EMPTY := Cache(map[], map[])

  /** How the database reads a key id; text that is no id names no row. */
  type ReadId = string -> Option<nat>

  function CacheKey(project: string, key: string): string { project + "|" + key }

  /** The query: an unrevoked key of that very project. */
  function Query(readId: ReadId, keys: Keys, project: string, key: string): Option<Auth> {
    match readId(key)
    case None => None
    case Some(id) =>
      if id in keys && keys[id].project == project && !keys[id].revoked then Some(Auth(project, keys[id].org, id))
          else None
  }

  /** The decision found in the cache, if any. */
  function Lookup(c: Cache, ck: string, now: int): Option<Result<Auth>> {
    if ck in c.entries && now < c.entries[ck].expiresAt then Some(Ok(c.entries[ck].auth))
    else if ck in c.neg && now < c.neg[ck] then Some(Err("invalid or revoked ingest key"))
    else None
  }

  /** A full map is emptied before the new decision goes in. */
  function Stored(c: Cache, ck: string, now: int, answer: Option<Auth>): Cache {
    match answer
    case Some(a) => c.(entries := (if |c.entries| > MAX_CACHED then map[] else c.entries)[ck := Entry(a, now + TTL)])
    case None => c.(neg := (if |c.neg| > MAX_CACHED then map[] else c.neg)[ck := now + TTL])
  }

  function Decision(answer: Option<Auth>): Result<Auth> {
    if answer.Some? then Ok(answer.value) else Err("invalid or revoked ingest key")
  }

  predicate Bounded(c: Cache) { |c.entries| <= 10_001 && |c.neg| <= 10_001 }

  /** A new decision stands for thirty seconds, displaces no other below the bound and keeps the bound. */
  lemma {:induction false} StoredStands(c: Cache, ck: string, now: int, answer: Option<Auth>)
    requires Lookup(c, ck, now).None?
    ensures forall later :: now <= later < now + 30_000_000_000 ==>
            Lookup(Stored(c, ck, now, answer), ck, later) == Some(Decision(answer))
    ensures Bounded(c) ==> Bounded(Stored(c, ck, now, answer))
    ensures |c.entries| <= 10_000 && |c.neg| <= 10_000 ==>
              forall other, t :: other != ck ==> Lookup(Stored(c, ck, now, answer), other, t) == Lookup(c, other, t)
  {
  }

  /** One call with no other in between. */
  class Resolver {
    var entries: map<string, Entry>
    var neg: map<string, int>

    method Resolve(readId: ReadId, keys: Keys, project: string, key: string, now: int) returns (r: Result<Auth>)
      modifies this
      ensures var before, ck := Cache(old(entries), old(neg)), CacheKey(project, key);
              if project == "" || key == "" then r.Err? && Cache(entries, neg) == before
              else if Lookup(before, ck, now).Some?
                  then r == Lookup(before, ck, now).value && Cache(entries, neg) == before
              else r == Decision(Query(readId, keys, project, key))
                   && Cache(entries, neg) == Stored(before, ck, now, Query(readId, keys, project, key))
      ensures project != "" && key != "" && Lookup(Cache(old(entries), old(neg)), CacheKey(project, key), now).None? ==>
                if r.Ok? then LiveKey(readId, keys, project, key, r.value)
                else forall a: Auth :: !LiveKey(readId, keys, project, key, a)
      ensures Bounded(Cache(old(entries), old(neg))) ==> Bounded(Cache(entries, neg))
      ensures project != "" && key != "" && Lookup(Cache(old(entries), old(neg)), CacheKey(project, key), now).None? ==>
                forall later :: now <= later < now + 30_000_000_000 ==>
                    Lookup(Cache(entries, neg), CacheKey(project, key), later) == Some(r)
    {
      ghost var before := Cache(entries, neg);
      if project == "" || key == "" {
        return Err("invalid or revoked ingest key");
      }
      var ck := project + "|" + key;
      if ck in entries && now < entries[ck].expiresAt {
        return Ok(entries[ck].auth);
      }
      if ck in neg && now < neg[ck] {
        return Err("invalid or revoked ingest key");
      }
      var a := Query(readId, keys, project, key);
      StoredStands(before, ck, now, a);
      QueryFindsLiveKeys(readId, keys, project, key);
      if a.None? {
        if |neg| > MAX_CACHED {
          neg := map[];
        }
        neg := neg[ck := now + TTL];
        return Err("invalid or revoked ingest key");
      }
      if |entries| > MAX_CACHED {
        entries := map[];
      }
      entries := entries[ck := Entry(a.value, now + TTL)];
      r := Ok(a.value);
    }
  }

  // ---- concurrent calls ----

  type CallId = nat

  datatype Phase = Started | Querying | Queried(answer: Option<Auth>) | Done(res: Result<Auth>)

  datatype Call = Call(project: string, key: string, now: int, phase: Phase)

  datatype State = State(clock: int, keys: Keys, cache: Cache, calls: map<CallId, Call>)

  datatype Step = Tick(t: int) | Create(id: nat, row: KeyRow) | Revoke(id: nat)
                | Start(call: CallId, project: string, key: string) | LookUp(call: CallId) | Ask(call: CallId)
                    | Store(call: CallId)

  function To(s: State, c: CallId, phase: Phase): State
    requires c in s.calls
  {
    s.(calls := s.calls[c := s.calls[c].(phase := phase)])
  }

  predicate In(s: State, c: CallId, phase: Phase) { c in s.calls && s.calls[c].phase == phase }

  /** Project ids are text without the cache key's separator. */
  predicate NextBy(readId: ReadId, s: State, step: Step, s': State) {
    match step
    case Tick(t) => t >= s.clock && s' == s.(clock := t)
    case Create(id, row) => id !in s.keys && !row.revoked && '|' !in row.project && s' == s.(keys := s.keys[id := row])
    case Revoke(id) => id in s.keys && s' == s.(keys := s.keys[id := s.keys[id].(revoked := true)])
    case Start(c, p, k) =>
      && c !in s.calls
      && var phase := if p == "" || k == "" then Done(Err("invalid or revoked ingest key")) else Started;
         s' == s.(calls := s.calls[c := Call(p, k, s.clock, phase)])
    case LookUp(c) =>
      && In(s, c, Started)
      && var found := Lookup(s.cache, CacheKey(s.calls[c].project, s.calls[c].key), s.calls[c].now);
         s' == To(s, c, if found.Some? then Done(found.value) else Querying)
    case Ask(c) => In(s, c, Querying)
        && s' == To(s, c, Queried(Query(readId, s.keys, s.calls[c].project, s.calls[c].key)))
    case Store(c) =>
      && c in s.calls && s.calls[c].phase.Queried?
      && var call := s.calls[c];
         s' == To(s, c, Done(Decision(call.phase.answer)))
               .(cache := Stored(s.cache, CacheKey(call.project, call.key), call.now, call.phase.answer))
  }

  ghost predicate Next(readId: ReadId, s: State, s': State) { exists step :: NextBy(readId, s, step, s') }

  ghost predicate IsRun(readId: ReadId, ss: seq<State>) {
    && |ss| > 0 && ss[0].keys == map[] && ss[0].cache == EMPTY && ss[0].calls == map[]
    && forall i :: 0 <= i < |ss| - 1 ==> Next(readId, ss[i], ss[i + 1])
  }

  /** Text with the separator is no id. */
  ghost predicate PlainIds(readId: ReadId) { forall k :: '|' in k ==> readId(k).None? }

  // ---- the cache key ----

  lemma {:induction false} PlainPairsDiffer(p: string, k: string, p': string, k': string)
    requires '|' !in p && '|' !in k && CacheKey(p, k) == CacheKey(p', k')
    ensures p == p' && k == k'
  {
    var s := CacheKey(p, k);
    assert forall i :: 0 <= i < |s| && s[i] == '|' ==> i == |p|;
    assert s[|p'|] == '|';
    assert p == s[..|p|] && p' == s[..|p'|];
    assert k == s[|p| + 1..] && k' == s[|p'| + 1..];
  }

  // ---- instants ----

  /** At some instant of the first n + 1 states, not before `since`, the pair had exactly this answer. */
  ghost predicate Was(readId: ReadId, ss: seq<State>, n: nat, since: int, p: string, k: string, answer: Option<Auth>) {
    exists j :: 0 <= j <= n && j < |ss| && since <= ss[j].clock && Query(readId, ss[j].keys, p, k) == answer
  }

  lemma {:induction false} WasStays(readId: ReadId, ss: seq<State>, n: nat, since: int, earlier: int, p: string,
      k: string, answer: Option<Auth>)
    requires Was(readId, ss, n, since, p, k, answer) && earlier <= since
    ensures Was(readId, ss, n + 1, earlier, p, k, answer) && Was(readId, ss, n, earlier, p, k, answer)
  {
    var j :| 0 <= j <= n && j < |ss| && since <= ss[j].clock && Query(readId, ss[j].keys, p, k) == answer;
    assert 0 <= j <= n + 1;
  }

  ghost predicate EntryOk(readId: ReadId, ss: seq<State>, n: nat, ck: string, e: Entry) {
    exists p, k :: ck == CacheKey(p, k) && Was(readId, ss, n, e.expiresAt - TTL, p, k, Some(e.auth))
  }

  ghost predicate NegOk(readId: ReadId, ss: seq<State>, n: nat, ck: string, t: int) {
    exists p, k :: ck == CacheKey(p, k) && Was(readId, ss, n, t - TTL, p, k, None)
  }

  /** A result is the answer of some instant less than the time to live before the call's clock read. */
  ghost predicate CallOk(readId: ReadId, ss: seq<State>, n: nat, c: Call) {
    match c.phase
    case Queried(answer) => Was(readId, ss, n, c.now, c.project, c.key, answer)
    case Done(res) => c.project != "" && c.key != "" ==>
                        Was(readId, ss, n, c.now - TTL + 1, c.project, c.key, if res.Ok? then Some(res.value) else None)
    case _ => true
  }

  ghost predicate EntriesOk(readId: ReadId, ss: seq<State>, n: nat, entries: map<string, Entry>) {
    |entries| <= MAX_CACHED + 1 && forall ck :: ck in entries ==> EntryOk(readId, ss, n, ck, entries[ck])
  }

  ghost predicate NegsOk(readId: ReadId, ss: seq<State>, n: nat, neg: map<string, int>) {
    |neg| <= MAX_CACHED + 1 && forall ck :: ck in neg ==> NegOk(readId, ss, n, ck, neg[ck])
  }

  ghost predicate CacheOk(readId: ReadId, ss: seq<State>, n: nat, c: Cache) {
    EntriesOk(readId, ss, n, c.entries) && NegsOk(readId, ss, n, c.neg)
  }

  predicate KeysOk(keys: Keys) { forall id :: id in keys ==> '|' !in keys[id].project }

  predicate KeysOkUpTo(ss: seq<State>, n: nat) { forall j :: 0 <= j <= n && j < |ss| ==> KeysOk(ss[j].keys) }

  ghost predicate CallsOk(readId: ReadId, ss: seq<State>, n: nat, s: State) {
    forall c :: c in s.calls ==> s.calls[c].now <= s.clock && CallOk(readId, ss, n, s.calls[c])
  }

  ghost predicate StateOk(readId: ReadId, ss: seq<State>, n: nat) {
    n < |ss| && KeysOk(ss[n].keys) && CacheOk(readId, ss, n, ss[n].cache) && CallsOk(readId, ss, n, ss[n])
  }

  /** What held of the first n + 1 states holds of one more. */
  lemma {:induction false} CallStays(readId: ReadId, ss: seq<State>, n: nat, c: Call)
    requires CallOk(readId, ss, n, c)
    ensures CallOk(readId, ss, n + 1, c)
  {
    match c.phase
    case Queried(answer) => WasStays(readId, ss, n, c.now, c.now, c.project, c.key, answer);
    case Done(res) =>
      if c.project != "" && c.key != "" {
        var answer := if res.Ok? then Some(res.value) else None;
        WasStays(readId, ss, n, c.now - TTL + 1, c.now - TTL + 1, c.project, c.key, answer);
      }
    case _ =>
  }

  lemma {:induction false} EntriesStay(readId: ReadId, ss: seq<State>, n: nat, entries: map<string, Entry>)
    requires EntriesOk(readId, ss, n, entries)
    ensures EntriesOk(readId, ss, n + 1, entries)
  {
    forall ck | ck in entries ensures EntryOk(readId, ss, n + 1, ck, entries[ck]) {
      var e := entries[ck];
      assert EntryOk(readId, ss, n, ck, e);
      var p, k :| ck == CacheKey(p, k) && Was(readId, ss, n, e.expiresAt - TTL, p, k, Some(e.auth));
      WasStays(readId, ss, n, e.expiresAt - TTL, e.expiresAt - TTL, p, k, Some(e.auth));
    }
  }

  lemma {:induction false} NegsStay(readId: ReadId, ss: seq<State>, n: nat, neg: map<string, int>)
    requires NegsOk(readId, ss, n, neg)
    ensures NegsOk(readId, ss, n + 1, neg)
  {
    forall ck | ck in neg ensures NegOk(readId, ss, n + 1, ck, neg[ck]) {
      var t := neg[ck];
      assert NegOk(readId, ss, n, ck, t);
      var p, k :| ck == CacheKey(p, k) && Was(readId, ss, n, t - TTL, p, k, None);
      WasStays(readId, ss, n, t - TTL, t - TTL, p, k, None);
    }
  }

  /** A pair with the separator in it is never live. */
  lemma {:induction false} SeparatedIsNeverLive(readId: ReadId, keys: Keys, p: string, k: string)
    requires PlainIds(readId) && KeysOk(keys)
    ensures '|' in p || '|' in k ==> Query(readId, keys, p, k) == None
  {
  }

  /** A cached success speaks for the pair that looks it up. */
  lemma {:induction false} EntryIsForThePair(readId: ReadId, ss: seq<State>, n: nat, e: Entry, p: string, k: string)
    requires PlainIds(readId) && n < |ss| && KeysOkUpTo(ss, n)
    requires EntryOk(readId, ss, n, CacheKey(p, k), e)
    ensures Was(readId, ss, n, e.expiresAt - TTL, p, k, Some(e.auth))
  {
    var p', k' :| CacheKey(p, k) == CacheKey(p', k') && Was(readId, ss, n, e.expiresAt - TTL, p', k', Some(e.auth));
    var j :| 0 <= j <= n && e.expiresAt - TTL <= ss[j].clock && Query(readId, ss[j].keys, p', k') == Some(e.auth);
    SeparatedIsNeverLive(readId, ss[j].keys, p', k');
    PlainPairsDiffer(p', k', p, k);
  }

  /** So does a cached failure; a pair that could be confused with another is never live anyway. */
  lemma {:induction false} NegIsForThePair(readId: ReadId, ss: seq<State>, n: nat, t: int, now: int, p: string,
      k: string)
    requires PlainIds(readId) && n < |ss| && KeysOk(ss[n].keys) && now < t && now <= ss[n].clock
    requires NegOk(readId, ss, n, CacheKey(p, k), t)
    ensures Was(readId, ss, n, now - TTL + 1, p, k, None)
  {
    var p', k' :| CacheKey(p, k) == CacheKey(p', k') && Was(readId, ss, n, t - TTL, p', k', None);
    if '|' in p || '|' in k {
      SeparatedIsNeverLive(readId, ss[n].keys, p, k);
      assert Query(readId, ss[n].keys, p, k) == None;
    } else {
      PlainPairsDiffer(p, k, p', k');
      WasStays(readId, ss, n, t - TTL, now - TTL + 1, p, k, None);
    }
  }

  lemma {:induction false} HitIsRecent(readId: ReadId, ss: seq<State>, n: nat, call: Call)
    requires PlainIds(readId) && n < |ss| && KeysOkUpTo(ss, n) && call.now <= ss[n].clock
    requires CacheOk(readId, ss, n, ss[n].cache)
    ensures var found := Lookup(ss[n].cache, CacheKey(call.project, call.key), call.now);
            found.Some? ==> CallOk(readId, ss, n, call.(phase := Done(found.value)))
  {
    var c, ck := ss[n].cache, CacheKey(call.project, call.key);
    if ck in c.entries && call.now < c.entries[ck].expiresAt {
      var e := c.entries[ck];
      EntryIsForThePair(readId, ss, n, e, call.project, call.key);
      WasStays(readId, ss, n, e.expiresAt - TTL, call.now - TTL + 1, call.project, call.key, Some(e.auth));
    } else if ck in c.neg && call.now < c.neg[ck] {
      NegIsForThePair(readId, ss, n, c.neg[ck], call.now, call.project, call.key);
    }
  }

  lemma {:induction false} EntryMade(readId: ReadId, ss: seq<State>, n: nat, p: string, k: string, e: Entry)
    requires Was(readId, ss, n, e.expiresAt - TTL, p, k, Some(e.auth))
    ensures EntryOk(readId, ss, n, CacheKey(p, k), e)
  {
  }

  lemma {:induction false} NegMade(readId: ReadId, ss: seq<State>, n: nat, p: string, k: string, t: int)
    requires Was(readId, ss, n, t - TTL, p, k, None)
    ensures NegOk(readId, ss, n, CacheKey(p, k), t)
  {
  }

  lemma {:induction false} EntryStored(readId: ReadId, ss: seq<State>, n: nat, entries: map<string, Entry>, ck: string,
      e: Entry)
    requires EntriesOk(readId, ss, n, entries) && EntryOk(readId, ss, n, ck, e) && |entries| <= MAX_CACHED
    ensures EntriesOk(readId, ss, n, entries[ck := e])
  {
  }

  lemma {:induction false} NegStored(readId: ReadId, ss: seq<State>, n: nat, neg: map<string, int>, ck: string, t: int)
    requires NegsOk(readId, ss, n, neg) && NegOk(readId, ss, n, ck, t) && |neg| <= MAX_CACHED
    ensures NegsOk(readId, ss, n, neg[ck := t])
  {
  }

  lemma {:induction false} StoredSuccess(readId: ReadId, ss: seq<State>, n: nat, c: Cache, ck: string, now: int,
      a: Auth)
    requires CacheOk(readId, ss, n, c) && EntryOk(readId, ss, n, ck, Entry(a, now + TTL))
    ensures CacheOk(readId, ss, n, Stored(c, ck, now, Some(a)))
  {
    EntryStored(readId, ss, n, if |c.entries| > MAX_CACHED then map[] else c.entries, ck, Entry(a, now + TTL));
  }

  lemma {:induction false} StoredFailure(readId: ReadId, ss: seq<State>, n: nat, c: Cache, ck: string, now: int)
    requires CacheOk(readId, ss, n, c) && NegOk(readId, ss, n, ck, now + TTL)
    ensures CacheOk(readId, ss, n, Stored(c, ck, now, None))
  {
    NegStored(readId, ss, n, if |c.neg| > MAX_CACHED then map[] else c.neg, ck, now + TTL);
  }

  lemma {:induction false} StoredIsOk(readId: ReadId, ss: seq<State>, n: nat, c: Cache, call: Call)
    requires CacheOk(readId, ss, n, c) && call.phase.Queried? && CallOk(readId, ss, n, call)
    ensures CacheOk(readId, ss, n, Stored(c, CacheKey(call.project, call.key), call.now, call.phase.answer))
  {
    if call.phase.answer.Some? {
      EntryMade(readId, ss, n, call.project, call.key, Entry(call.phase.answer.value, call.now + TTL));
      StoredSuccess(readId, ss, n, c, CacheKey(call.project, call.key), call.now, call.phase.answer.value);
    } else {
      NegMade(readId, ss, n, call.project, call.key, call.now + TTL);
      StoredFailure(readId, ss, n, c, CacheKey(call.project, call.key), call.now);
    }
  }

  lemma {:induction false} NewCallOk(readId: ReadId, ss: seq<State>, n: nat, step: Step, c: CallId)
    requires PlainIds(readId) && n + 1 < |ss| && KeysOkUpTo(ss, n) && StateOk(readId, ss, n)
    requires NextBy(readId, ss[n], step, ss[n + 1]) && c in ss[n + 1].calls
    ensures ss[n + 1].calls[c].now <= ss[n + 1].clock && CallOk(readId, ss, n + 1, ss[n + 1].calls[c])
  {
    var s, s' := ss[n], ss[n + 1];
    if c in s.calls && s'.calls[c] == s.calls[c] {
      CallStays(readId, ss, n, s.calls[c]);
    } else {
      match step
      case LookUp(_) =>
        HitIsRecent(readId, ss, n, s.calls[c]);
        CallStays(readId, ss, n, s'.calls[c]);
      case Ask(_) =>
        assert Was(readId, ss, n, s.calls[c].now, s.calls[c].project, s.calls[c].key, s'.calls[c].phase.answer);
        CallStays(readId, ss, n, s'.calls[c]);
      case Store(_) =>
        var call := s.calls[c];
        WasStays(readId, ss, n, call.now, call.now - TTL + 1, call.project, call.key, call.phase.answer);
      case _ =>
    }
  }

  lemma {:induction false} NewCacheOk(readId: ReadId, ss: seq<State>, n: nat, step: Step)
    requires n + 1 < |ss| && StateOk(readId, ss, n) && NextBy(readId, ss[n], step, ss[n + 1])
    ensures KeysOk(ss[n + 1].keys) && CacheOk(readId, ss, n + 1, ss[n + 1].cache)
  {
    if step.Store? {
      StoredIsOk(readId, ss, n, ss[n].cache, ss[n].calls[step.call]);
    }
    EntriesStay(readId, ss, n, ss[n + 1].cache.entries);
    NegsStay(readId, ss, n, ss[n + 1].cache.neg);
  }

  lemma {:induction false} RunKeepsKeys(readId: ReadId, ss: seq<State>, n: nat)
    requires IsRun(readId, ss) && n < |ss|
    ensures KeysOkUpTo(ss, n)
  {
    if n == 0 {
    } else {
      RunKeepsKeys(readId, ss, n - 1);
      assert Next(readId, ss[n - 1], ss[n - 1 + 1]);
    }
  }

  lemma {:induction false} StepKeepsOk(readId: ReadId, ss: seq<State>, n: nat, step: Step)
    requires PlainIds(readId) && n + 1 < |ss| && KeysOkUpTo(ss, n) && StateOk(readId, ss, n)
    requires NextBy(readId, ss[n], step, ss[n + 1])
    ensures StateOk(readId, ss, n + 1)
  {
    NewCacheOk(readId, ss, n, step);
    var s' := ss[n + 1];
    forall c | c in s'.calls ensures s'.calls[c].now <= s'.clock && CallOk(readId, ss, n + 1, s'.calls[c]) {
      NewCallOk(readId, ss, n, step, c);
    }
  }

  lemma {:induction false} StartIsOk(readId: ReadId, ss: seq<State>, n: nat)
    requires IsRun(readId, ss) && n == 0
    ensures StateOk(readId, ss, n)
  {
  }

  lemma {:induction false} StepAt(readId: ReadId, ss: seq<State>, n: nat) returns (step: Step)
    requires IsRun(readId, ss) && n + 1 < |ss|
    ensures NextBy(readId, ss[n], step, ss[n + 1])
  {
    assert Next(readId, ss[n], ss[n + 1]);
    step :| NextBy(readId, ss[n], step, ss[n + 1]);
  }

  lemma {:induction false} NextIsOk(readId: ReadId, ss: seq<State>, n: nat, next: nat)
    requires PlainIds(readId) && IsRun(readId, ss) && next == n + 1 < |ss| && StateOk(readId, ss, n)
    ensures StateOk(readId, ss, next)
  {
    RunKeepsKeys(readId, ss, n);
    var step := StepAt(readId, ss, n);
    StepKeepsOk(readId, ss, n, step);
  }

  lemma {:induction false} RunKeepsOk(readId: ReadId, ss: seq<State>, n: nat)
    requires PlainIds(readId) && IsRun(readId, ss) && n < |ss|
    ensures StateOk(readId, ss, n)
  {
    if n == 0 {
      StartIsOk(readId, ss, n);
    } else {
      RunKeepsOk(readId, ss, n - 1);
      NextIsOk(readId, ss, n - 1, n);
    }
  }

  /** What the success must have found: an unrevoked key of that very project, with the answer naming all three. */
  predicate LiveKey(readId: ReadId, keys: Keys, project: string, key: string, a: Auth) {
    && readId(key) == Some(a.keyId) && a.keyId in keys
    && keys[a.keyId].project == project == a.project && !keys[a.keyId].revoked && keys[a.keyId].org == a.org
  }

  lemma QueryFindsLiveKeys(readId: ReadId, keys: Keys, project: string, key: string)
    ensures forall a: Auth :: Query(readId, keys, project, key) == Some(a) <==> LiveKey(readId, keys, project, key, a)
    ensures Query(readId, keys, project, key).None? <==> forall a: Auth :: !LiveKey(readId, keys, project, key, a)
  {
    if Query(readId, keys, project, key).Some? {
      assert LiveKey(readId, keys, project, key, Query(readId, keys, project, key).value);
    }
  }

  /**
   In every interleaving, a call with non-empty arguments succeeds only with a key of its own project that was live at
   some instant less than 30 seconds before its clock read, or later, and the answer is that key's; it fails only if
   there was no such key at some such instant. Neither map passes 10,001 entries.
   */
  lemma {:induction false} AnswersAreRecent(readId: ReadId, ss: seq<State>, n: nat, c: CallId)
    requires PlainIds(readId) && IsRun(readId, ss) && n < |ss|
    requires c in ss[n].calls && ss[n].calls[c].phase.Done? && ss[n].calls[c].project != "" && ss[n].calls[c].key != ""
    ensures var call, res := ss[n].calls[c], ss[n].calls[c].phase.res;
            exists j :: 0 <= j <= n && call.now - 30_000_000_000 < ss[j].clock
                        && if res.Ok? then LiveKey(readId, ss[j].keys, call.project, call.key, res.value)
                           else forall a: Auth :: !LiveKey(readId, ss[j].keys, call.project, call.key, a)
    ensures |ss[n].cache.entries| <= 10_001 && |ss[n].cache.neg| <= 10_001
  {
    RunKeepsOk(readId, ss, n);
    var call := ss[n].calls[c];
    var answer := if call.phase.res.Ok? then Some(call.phase.res.value) else None;
    assert CallOk(readId, ss, n, call);
    var j :| 0 <= j <= n && call.now - TTL + 1 <= ss[j].clock
        && Query(readId, ss[j].keys, call.project, call.key) == answer;
    QueryFindsLiveKeys(readId, ss[j].keys, call.project, call.key);
  }

  /** A call without a project or a key never succeeds. */
  lemma {:induction false} EmptyArgumentsFail(readId: ReadId, ss: seq<State>, n: nat, c: CallId)
    requires IsRun(readId, ss) && n < |ss| && c in ss[n].calls
    ensures ss[n].calls[c].project == "" || ss[n].calls[c].key == "" ==>
              ss[n].calls[c].phase.Done? && ss[n].calls[c].phase.res.Err?
  {
    if n == 0 {
    } else {
      var step := StepAt(readId, ss, n - 1);
      if c in ss[n - 1].calls {
        EmptyArgumentsFail(readId, ss, n - 1, c);
      }
    }
  }

  lemma {:induction false} RunMovesForward(readId: ReadId, ss: seq<State>, i: nat, j: nat, id: nat)
    requires IsRun(readId, ss) && i <= j < |ss|
    ensures ss[i].clock <= ss[j].clock
    ensures id in ss[i].keys && ss[i].keys[id].revoked ==> id in ss[j].keys && ss[j].keys[id].revoked
    decreases j
  {
    if i < j {
      RunMovesForward(readId, ss, i, j - 1, id);
      var step := StepAt(readId, ss, j - 1);
    }
  }

  /** No call whose clock reads 30 seconds or more after the key was revoked succeeds. */
  lemma {:induction false} RevokedKeysStopWorking(readId: ReadId, ss: seq<State>, i: nat, n: nat, c: CallId)
    requires PlainIds(readId) && IsRun(readId, ss) && i < |ss| && n < |ss|
    requires c in ss[n].calls && ss[n].calls[c].phase.Done? && ss[n].calls[c].now >= ss[i].clock + 30_000_000_000
    requires var id := readId(ss[n].calls[c].key); id.Some? && id.value in ss[i].keys && ss[i].keys[id.value].revoked
    ensures ss[n].calls[c].phase.res.Err?
  {
    var call := ss[n].calls[c];
    EmptyArgumentsFail(readId, ss, n, c);
    if call.project != "" && call.key != "" && call.phase.res.Ok? {
      AnswersAreRecent(readId, ss, n, c);
      var j :| 0 <= j <= n && call.now - 30_000_000_000 < ss[j].clock
               && LiveKey(readId, ss[j].keys, call.project, call.key, call.phase.res.value);
      if j < i {
        RunMovesForward(readId, ss, j, i, readId(call.key).value);
      } else {
        RunMovesForward(readId, ss, i, j, readId(call.key).value);
      }
    }
  }
}
