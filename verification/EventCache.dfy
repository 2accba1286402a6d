/**
 The write-back cache of symbolicated events: uploads, deletes and any number of concurrent views, each view
 loading the artifacts, then reading the event's stored result, then possibly computing and storing one.
 */
module EventCache {
  import opened Wrappers
  import opened Resolve
  import opened Text
  import opened ArtifactKey
  import opened EventView

  /** A row of release_files; its other columns are computed from the name and the body. */
  datatype FileKey = FileKey(project: nat, release: string, dist: string, name: string)

  /** The library calls of a view and of an upload. */
  datatype Env = Env(lib: Library, hash: string -> string, extract: (string, string) -> (string, string))

  /** An event row: what is stored never changes, except for its cached result. */
  datatype StoredEvent = StoredEvent(project: nat, payload: Event)

  type EventId = nat

  type ViewId = nat

  datatype View = Loaded(event: EventId, arts: seq<Artifact>)
                | Missed(event: EventId, arts: seq<Artifact>)
                | Returned(event: EventId, arts: seq<Artifact>, res: EventResult)

  datatype State = State(files: map<FileKey, string>, cells: map<EventId, EventResult>, views: map<ViewId, View>)

  datatype Step = Upload(key: FileKey, body: string)
                | Delete(key: FileKey)
                | Load(view: ViewId, event: EventId, arts: seq<Artifact>)
                | ReadCell(view: ViewId)
                | WriteBack(view: ViewId)
                | Abandon(view: ViewId)

  predicate HasSuffixFold(s: string, suf: string) { |s| >= |suf| && ToLower(s[|s| - |suf|..]) == ToLower(suf) }

  predicate HasPrefixFold(s: string, pre: string) { |s| >= |pre| && ToLower(s[..|pre|]) == ToLower(pre) }

  /** An artifact that cannot be a map is listed with an empty body. */
  function ArtifactOf(env: Env, dist: string, name: string, body: string): Artifact {
    var refs := env.extract(name, body);
    var mapish := refs.0 != "" || HasSuffixFold(name, ".map") || HasPrefixFold(refs.1, "data:");
    Artifact(name, dist, env.hash(body), refs.0, refs.1, if mapish then body else "")
  }

  /**
   A file's debug id and reference come from its own content, and its body is loaded exactly when it has a debug id, its
   name ends in .map or its reference starts with data:, in either case.
   */
  lemma BodyIsLoadedExactlyWhen(env: Env, dist: string, name: string, body: string)
    ensures var a, refs := ArtifactOf(env, dist, name, body), env.extract(name, body);
            var ending := if |name| >= 4 then ToLower(name[|name| - 4..]) else "";
            var start := if |refs.1| >= 5 then ToLower(refs.1[..5]) else "";
            && a.name == name && a.dist == dist && a.sha == env.hash(body)
            && a.debugId == refs.0 && a.sourcemapUrl == refs.1
            && a.body == if refs.0 != "" || ending == ".map" || start == "data:" then body else ""
  {
    assert ToLower(".map") == ".map" && ToLower("data:") == "data:";
  }

  /** The artifacts of a project's release. */
  function ReleaseSet(env: Env, files: map<FileKey, string>, project: nat, release: string): set<Artifact> {
    if release == "" then {} else
    set k | k in files && k.project == project && k.release == release :: ArtifactOf(env, k.dist, k.name, files[k])
  }

  /** One of the orders in which the unordered SELECT may return them. */
  predicate Lists(env: Env, files: map<FileKey, string>, project: nat, release: string, arts: seq<Artifact>) {
    Elements(arts) == ReleaseSet(env, files, project, release) && UniqueKeys(RowsOf(arts))
  }

  function Key(env: Env, e: Event, arts: seq<Artifact>): string { KeyOf(env.hash, e.release, arts) }

  function Compute(env: Env, e: Event, arts: seq<Artifact>): EventResult {
    Uncached(env.lib, Key(env, e, arts), arts, e)
  }

  predicate NextBy(env: Env, events: EventId -> StoredEvent, s: State, step: Step, s': State) {
    match step
    case Upload(k, body) => k !in s.files && s' == s.(files := s.files[k := body])
    case Delete(k) => k in s.files && s' == s.(files := s.files - {k})
    case Load(v, id, arts) =>
      && v !in s.views && Lists(env, s.files, events(id).project, events(id).payload.release, arts)
      && s' == s.(views := s.views[v := Loaded(id, arts)])
    case ReadCell(v) =>
      && v in s.views && s.views[v].Loaded?
      && var view := s.views[v];
         var hit := view.event in s.cells
             && s.cells[view.event].cacheKey == Key(env, events(view.event).payload, view.arts);
         s' == s.(views := s.views[v := if hit then Returned(view.event, view.arts, s.cells[view.event])
             else Missed(view.event, view.arts)])
    case WriteBack(v) =>
      && v in s.views && s.views[v].Missed?
      && var view := s.views[v];
         var res := Compute(env, events(view.event).payload, view.arts);
         s' == s.(cells := s.cells[view.event := res], views := s.views[v := Returned(view.event, view.arts, res)])
    case Abandon(v) => v in s.views && s' == s.(views := s.views - {v})
  }

  /** No name or dist holds 0x1f. */
  predicate Clean(s: State) { forall k :: k in s.files ==> Plain(k.dist, k.name) }

  ghost predicate Next(env: Env, events: EventId -> StoredEvent, s: State, s': State) {
    exists step :: NextBy(env, events, s, step, s')
  }

  ghost predicate IsRun(env: Env, events: EventId -> StoredEvent, ss: seq<State>) {
    && |ss| > 0 && ss[0] == State(map[], map[], map[])
    && forall i :: 0 <= i < |ss| - 1 ==> Next(env, events, ss[i], ss[i + 1])
  }

  // ---- lists with the same key hold the same artifacts ----

  ghost predicate MadeFrom(env: Env, a: Artifact, body: string) {
    a == ArtifactOf(env, a.dist, a.name, body) && Plain(a.dist, a.name)
  }

  /** A list some state of a clean run could have produced. */
  ghost predicate Genuine(env: Env, arts: seq<Artifact>) {
    UniqueKeys(RowsOf(arts)) && forall a :: a in arts ==> exists body :: MadeFrom(env, a, body)
  }

  /** A collision-free hash whose hex text holds no 0x1e. */
  ghost predicate GoodHash(env: Env) { CollisionFree(env.hash) && forall b :: RECORD !in env.hash(b) }

  lemma GenuineIsFree(env: Env, arts: seq<Artifact>)
    requires GoodHash(env) && Genuine(env, arts)
    ensures AllFree(RowsOf(arts))
  {
    forall r | r in RowsOf(arts) ensures RowFree(r) {
      var i :| 0 <= i < |RowsOf(arts)| && RowsOf(arts)[i] == r;
      assert arts[i] in arts;
      var body :| MadeFrom(env, arts[i], body);
    }
  }

  lemma RowInRows(arts: seq<Artifact>, r: Row)
    ensures r in Elements(RowsOf(arts)) <==> exists a :: a in arts && RowOf(a) == r
  {
    if r in Elements(RowsOf(arts)) {
      var i :| 0 <= i < |RowsOf(arts)| && RowsOf(arts)[i] == r;
      assert arts[i] in arts;
    }
    if a :| a in arts && RowOf(a) == r {
      var i :| 0 <= i < |arts| && arts[i] == a;
      assert RowsOf(arts)[i] == r;
    }
  }

  lemma SameRowsSameArtifacts(env: Env, a: seq<Artifact>, b: seq<Artifact>)
    requires GoodHash(env) && Genuine(env, a) && Genuine(env, b) && Elements(RowsOf(a)) <= Elements(RowsOf(b))
    ensures Elements(a) <= Elements(b)
  {
    forall x | x in a ensures x in b {
      RowInRows(a, RowOf(x));
      RowInRows(b, RowOf(x));
      var y :| y in b && RowOf(y) == RowOf(x);
      var bodyX :| MadeFrom(env, x, bodyX);
      var bodyY :| MadeFrom(env, y, bodyY);
      assert env.hash(bodyX) == env.hash(bodyY);
    }
  }

  lemma SameKeySameArtifacts(env: Env, e: Event, a: seq<Artifact>, b: seq<Artifact>)
    requires GoodHash(env) && Genuine(env, a) && Genuine(env, b) && Key(env, e, a) == Key(env, e, b)
    ensures Elements(a) == Elements(b)
  {
    GenuineIsFree(env, a);
    GenuineIsFree(env, b);
    SameKeyExactlyWhenSameRows(env.hash, e.release, a, b);
    SameRowsSameArtifacts(env, a, b);
    SameRowsSameArtifacts(env, b, a);
  }

  lemma ListsAreGenuine(env: Env, s: State, project: nat, release: string, arts: seq<Artifact>)
    requires Clean(s) && Lists(env, s.files, project, release, arts)
    ensures Genuine(env, arts)
  {
    forall a | a in arts ensures exists body :: MadeFrom(env, a, body) {
      assert a in Elements(arts) && a in ReleaseSet(env, s.files, project, release);
      var k :| k in s.files && a == ArtifactOf(env, k.dist, k.name, s.files[k]);
      var made := ArtifactOf(env, k.dist, k.name, s.files[k]);
      assert made.dist == k.dist && made.name == k.name;
      assert MadeFrom(env, a, s.files[k]);
    }
  }

  // ---- every view is right for the artifacts it loaded ----

  /** What a fresh computation may return on these artifacts: the rows in one order or another. */
  ghost predicate FreshOn(env: Env, e: Event, arts: seq<Artifact>, res: EventResult) {
    exists order :: Genuine(env, order) && Elements(order) == Elements(arts) && res == Compute(env, e, order)
  }

  ghost predicate CellOk(env: Env, e: Event, res: EventResult) {
    exists order :: Genuine(env, order) && res == Compute(env, e, order)
  }

  ghost predicate Ok(env: Env, events: EventId -> StoredEvent, s: State) {
    && (forall id :: id in s.cells ==> CellOk(env, events(id).payload, s.cells[id]))
    && (forall v :: v in s.views ==> Genuine(env, s.views[v].arts))
    && (forall v :: v in s.views && s.views[v].Returned? ==>
        FreshOn(env, events(s.views[v].event).payload, s.views[v].arts, s.views[v].res))
  }

  lemma HitIsFresh(env: Env, e: Event, arts: seq<Artifact>, stored: EventResult)
    requires GoodHash(env) && Genuine(env, arts) && CellOk(env, e, stored) && stored.cacheKey == Key(env, e, arts)
    ensures FreshOn(env, e, arts, stored)
  {
    var order :| Genuine(env, order) && stored == Compute(env, e, order);
    SameKeySameArtifacts(env, e, order, arts);
  }

  lemma ViewKeepsOk(env: Env, events: EventId -> StoredEvent, s: State, v: ViewId, view: View)
    requires Ok(env, events, s) && Genuine(env, view.arts)
    requires view.Returned? ==> FreshOn(env, events(view.event).payload, view.arts, view.res)
    ensures Ok(env, events, s.(views := s.views[v := view]))
  {
  }

  lemma ReadKeepsOk(env: Env, events: EventId -> StoredEvent, s: State, v: ViewId, s': State)
    requires GoodHash(env) && Ok(env, events, s) && NextBy(env, events, s, ReadCell(v), s')
    ensures Ok(env, events, s')
  {
    var view := s.views[v];
    var e := events(view.event).payload;
    if view.event in s.cells && s.cells[view.event].cacheKey == Key(env, e, view.arts) {
      HitIsFresh(env, e, view.arts, s.cells[view.event]);
    }
    ViewKeepsOk(env, events, s, v, s'.views[v]);
  }

  lemma ComputedIsFresh(env: Env, e: Event, arts: seq<Artifact>, res: EventResult)
    requires Genuine(env, arts) && res == Compute(env, e, arts)
    ensures CellOk(env, e, res) && FreshOn(env, e, arts, res)
  {
  }

  lemma WriteKeepsOk(env: Env, events: EventId -> StoredEvent, s: State, v: ViewId, id: EventId, arts: seq<Artifact>,
      res: EventResult)
    requires Ok(env, events, s) && Genuine(env, arts)
    requires CellOk(env, events(id).payload, res) && FreshOn(env, events(id).payload, arts, res)
    ensures Ok(env, events, s.(cells := s.cells[id := res], views := s.views[v := Returned(id, arts, res)]))
  {
  }

  lemma StepKeepsOk(env: Env, events: EventId -> StoredEvent, s: State, step: Step, s': State)
    requires GoodHash(env) && Clean(s) && Ok(env, events, s) && NextBy(env, events, s, step, s')
    ensures Ok(env, events, s')
  {
    match step
    case Load(v, id, arts) =>
      ListsAreGenuine(env, s, events(id).project, events(id).payload.release, arts);
      ViewKeepsOk(env, events, s, v, Loaded(id, arts));
    case ReadCell(v) => ReadKeepsOk(env, events, s, v, s');
    case WriteBack(v) =>
      var view := s.views[v];
      var e := events(view.event).payload;
      ComputedIsFresh(env, e, view.arts, Compute(env, e, view.arts));
      WriteKeepsOk(env, events, s, v, view.event, view.arts, Compute(env, e, view.arts));
    case _ =>
  }

  lemma {:induction false} RunKeepsOk(env: Env, events: EventId -> StoredEvent, ss: seq<State>, n: nat)
    requires GoodHash(env) && IsRun(env, events, ss) && n < |ss| && forall i :: 0 <= i < |ss| ==> Clean(ss[i])
    ensures Ok(env, events, ss[n])
  {
    if n == 0 {
    } else {
      RunKeepsOk(env, events, ss, n - 1);
      assert Next(env, events, ss[n - 1], ss[n - 1 + 1]);
      var step :| NextBy(env, events, ss[n - 1], step, ss[n]);
      StepKeepsOk(env, events, ss[n - 1], step, ss[n]);
    }
  }

  /**
   Whatever uploads, deletes and views interleave, a view returns what an uncached computation returns
   on exactly the artifacts that view loaded: a stale result is never served.
   */
  lemma EveryViewIsFresh(env: Env, events: EventId -> StoredEvent, ss: seq<State>, n: nat, v: ViewId)
    requires GoodHash(env) && IsRun(env, events, ss) && n < |ss| && forall i :: 0 <= i < |ss| ==> Clean(ss[i])
    requires v in ss[n].views && ss[n].views[v].Returned?
    ensures FreshOn(env, events(ss[n].views[v].event).payload, ss[n].views[v].arts, ss[n].views[v].res)
  {
    RunKeepsOk(env, events, ss, n);
  }

  // ---- one view with nothing in between ----

  class EventRow {
    var symbolicated: Option<EventResult>

    method SymbolicateEvent(env: Env, e: Event, arts: seq<Artifact>) returns (res: EventResult)
      modifies this
      ensures symbolicated == Some(res)
      ensures res == if old(symbolicated).Some? && old(symbolicated).value.cacheKey == Key(env, e, arts)
              then old(symbolicated).value
                     else Compute(env, e, arts)
    {
      var cacheKey := ArtifactSetKey(env.hash, e.release, arts);
      if symbolicated.Some? && symbolicated.value.cacheKey == cacheKey {
        return symbolicated.value;
      }
      res := SymbolicateUncached(env.lib, cacheKey, arts, e);
      symbolicated := Some(res);
    }
  }
}
