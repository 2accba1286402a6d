/** Booting processes that each apply the pending migrations, serialised by an advisory lock. */
module Migrate {
  import opened Wrappers
  import opened Text

  datatype Migration = Migration(version: int, name: string, sql: string)

  datatype File = File(name: string, sql: string)

  // ---- loading the embedded list ----

  function TrimSql(name: string): Option<string> {
    if |name| >= 4 && name[|name| - 4..] == ".sql" then Some(name[..|name| - 4]) else None
  }

  /** NNNN_description: the scanned number before the first '_', the rest after it. */
  function ParseName(scan: string -> Option<int>, base: string, sql: string): Result<Migration> {
    var parts := Split(base, '_');
    if |parts| < 2 then Err("must be named NNNN_description.sql") else
    match scan(parts[0])
    case None => Err("bad version prefix")
    case Some(v) => Ok(Migration(v, Join(parts[1..], '_'), sql))
  }

  /** Other files are skipped; the first bad name is an error. */
  function ParseFiles(scan: string -> Option<int>, files: seq<File>): Result<seq<Migration>> {
    if files == [] then Ok([]) else
    match ParseFiles(scan, files[..|files| - 1])
    case Err(m) => Err(m)
    case Ok(ms) =>
      var f := files[|files| - 1];
      match TrimSql(f.name)
      case None => Ok(ms)
      case Some(base) => match ParseName(scan, base, f.sql) case Err(m) => Err(m) case Ok(mig) => Ok(ms + [mig])
  }

  function Insert(m: Migration, ms: seq<Migration>): seq<Migration> {
    if ms == [] || m.version <= ms[0].version then [m] + ms else [ms[0]] + Insert(m, ms[1..])
  }

  /** The library sort by version. */
  function Sorted(ms: seq<Migration>): seq<Migration> { if ms == [] then [] else Insert(ms[0], Sorted(ms[1..])) }

  predicate NeighboursDiffer(ms: seq<Migration>) { forall i :: 0 < i < |ms| ==> ms[i].version != ms[i - 1].version }

  function Loaded(scan: string -> Option<int>, files: seq<File>): Result<seq<Migration>> {
    match ParseFiles(scan, files)
    case Err(m) => Err(m)
    case Ok(ms) => if NeighboursDiffer(Sorted(ms)) then Ok(Sorted(ms)) else Err("duplicate migration version")
  }

  /** One more file. */
  lemma {:induction false} ParseStep(scan: string -> Option<int>, files: seq<File>, i: nat, ms: seq<Migration>)
    requires i < |files| && ParseFiles(scan, files[..i]) == Ok(ms)
    ensures ParseFiles(scan, files[..i + 1]) ==
              match TrimSql(files[i].name)
              case None => Ok(ms)
              case Some(base) =>
                match ParseName(scan, base, files[i].sql) case Err(m) => Err(m) case Ok(mig) => Ok(ms + [mig])
  {
    assert files[..i + 1][..i] == files[..i];
  }

  method ParseAll(scan: string -> Option<int>, files: seq<File>) returns (r: Result<seq<Migration>>)
    ensures r == ParseFiles(scan, files)
  {
    var migs: seq<Migration> := [];
    for i := 0 to |files|
      invariant ParseFiles(scan, files[..i]) == Ok(migs)
    {
      ParseStep(scan, files, i, migs);
      var base := TrimSql(files[i].name);
      if base.None? {
        continue;
      }
      var m := ParseName(scan, base.value, files[i].sql);
      if m.Err? {
        FirstErrorStays(scan, files, i + 1);
        return Err(m.error);
      }
      migs := migs + [m.value];
    }
    assert files[..|files|] == files;
    r := Ok(migs);
  }

  /** Reads, sorts and checks the embedded files. */
  method LoadMigrations(scan: string -> Option<int>, files: seq<File>) returns (r: Result<seq<Migration>>)
    ensures r == Loaded(scan, files)
  {
    var parsed := ParseAll(scan, files);
    if parsed.Err? {
      return parsed;
    }
    var migs := Sorted(parsed.value);
    var i := 1;
    while i < |migs|
      invariant 1 <= i
      invariant forall j :: 0 < j < i && j < |migs| ==> migs[j].version != migs[j - 1].version
    {
      if migs[i].version == migs[i - 1].version {
        return Err("duplicate migration version");
      }
      i := i + 1;
    }
    r := Ok(migs);
  }

  lemma {:induction false} FirstErrorStays(scan: string -> Option<int>, files: seq<File>, n: nat)
    requires n <= |files| && ParseFiles(scan, files[..n]).Err?
    ensures ParseFiles(scan, files) == ParseFiles(scan, files[..n])
    decreases |files|
  {
    if n == |files| {
      assert files[..n] == files;
    } else {
      var init := files[..|files| - 1];
      assert init[..n] == files[..n];
      FirstErrorStays(scan, init, n);
    }
  }

  predicate Rising(ms: seq<Migration>) { forall i, j :: 0 <= i < j < |ms| ==> ms[i].version <= ms[j].version }

  predicate Ascending(ms: seq<Migration>) { forall i, j :: 0 <= i < j < |ms| ==> ms[i].version < ms[j].version }

  function Versions(ms: seq<Migration>): set<int> { set m | m in ms :: m.version }

  predicate Distinct(ms: seq<Migration>) { ms == [] || (ms[0].version !in Versions(ms[1..]) && Distinct(ms[1..])) }

  lemma {:induction false} InsertAdds(m: Migration, ms: seq<Migration>)
    ensures multiset(Insert(m, ms)) == multiset(ms) + multiset{m}
  {
    if ms != [] && m.version > ms[0].version {
      InsertAdds(m, ms[1..]);
      assert ms == [ms[0]] + ms[1..];
    }
  }

  lemma {:induction false} InsertKeepsRising(m: Migration, ms: seq<Migration>)
    requires Rising(ms)
    ensures Rising(Insert(m, ms))
  {
    if ms != [] && m.version > ms[0].version {
      InsertKeepsRising(m, ms[1..]);
      InsertAdds(m, ms[1..]);
      var rest := Insert(m, ms[1..]);
      forall i | 0 <= i < |rest| ensures ms[0].version <= rest[i].version {
        assert rest[i] in multiset(rest);
        assert rest[i] == m || rest[i] in ms[1..];
      }
    }
  }

  lemma {:induction false} SortedIsRising(ms: seq<Migration>)
    ensures Rising(Sorted(ms)) && multiset(Sorted(ms)) == multiset(ms)
  {
    if ms == [] {
    } else {
      SortedIsRising(ms[1..]);
      InsertKeepsRising(ms[0], Sorted(ms[1..]));
      InsertAdds(ms[0], Sorted(ms[1..]));
      assert ms == [ms[0]] + ms[1..];
    }
  }

  lemma {:induction false} RisingNeighbours(ms: seq<Migration>, i: nat, j: nat)
    requires Rising(ms) && NeighboursDiffer(ms) && i < j < |ms|
    ensures ms[i].version < ms[j].version
  {
    assert ms[j - 1].version != ms[j].version;
  }

  /** A loaded list is strictly ascending and holds exactly the parsed files. */
  lemma {:induction false} LoadedIsAscending(scan: string -> Option<int>, files: seq<File>)
    requires Loaded(scan, files).Ok?
    ensures Ascending(Loaded(scan, files).value)
    ensures ParseFiles(scan, files).Ok?
            && multiset(Loaded(scan, files).value) == multiset(ParseFiles(scan, files).value)
  {
    var ms := Loaded(scan, files).value;
    SortedIsRising(ParseFiles(scan, files).value);
    forall i, j | 0 <= i < j < |ms| ensures ms[i].version < ms[j].version {
      RisingNeighbours(ms, i, j);
    }
  }

  lemma {:induction false} VersionsCons(m: Migration, ms: seq<Migration>)
    ensures Versions([m] + ms) == {m.version} + Versions(ms)
  {
    assert m in [m] + ms;
    forall v | v in Versions(ms) ensures v in Versions([m] + ms) {
      var x :| x in ms && x.version == v;
      assert x in [m] + ms;
    }
  }

  lemma {:induction false} DistinctCons(m: Migration, ms: seq<Migration>)
    ensures Distinct([m] + ms) <==> m.version !in Versions(ms) && Distinct(ms)
  {
    assert ([m] + ms)[1..] == ms;
  }

  lemma {:induction false} InsertVersions(m: Migration, ms: seq<Migration>)
    ensures Versions(Insert(m, ms)) == {m.version} + Versions(ms)
  {
    VersionsCons(m, ms);
    if ms != [] && m.version > ms[0].version {
      InsertVersions(m, ms[1..]);
      VersionsCons(ms[0], Insert(m, ms[1..]));
      VersionsCons(ms[0], ms[1..]);
      assert ms == [ms[0]] + ms[1..];
    }
  }

  lemma {:induction false} InsertDistinct(m: Migration, ms: seq<Migration>)
    ensures Distinct(Insert(m, ms)) <==> m.version !in Versions(ms) && Distinct(ms)
  {
    if ms == [] || m.version <= ms[0].version {
      DistinctCons(m, ms);
    } else {
      InsertDistinct(m, ms[1..]);
      DistinctCons(ms[0], Insert(m, ms[1..]));
      InsertVersions(m, ms[1..]);
      VersionsCons(ms[0], ms[1..]);
      assert ms == [ms[0]] + ms[1..];
    }
  }

  lemma {:induction false} SortedKeepsVersions(ms: seq<Migration>)
    ensures Versions(Sorted(ms)) == Versions(ms) && (Distinct(Sorted(ms)) <==> Distinct(ms))
  {
    if ms == [] {
    } else {
      SortedKeepsVersions(ms[1..]);
      InsertVersions(ms[0], Sorted(ms[1..]));
      InsertDistinct(ms[0], Sorted(ms[1..]));
      assert ms == [ms[0]] + ms[1..];
      VersionsCons(ms[0], ms[1..]);
    }
  }

  lemma {:induction false} NeighboursOfTail(ms: seq<Migration>)
    requires |ms| > 1
    ensures NeighboursDiffer(ms) <==> ms[0].version != ms[1].version && NeighboursDiffer(ms[1..])
  {
    var t := ms[1..];
    assert forall i :: 0 < i < |t| ==> t[i] == ms[i + 1] && t[i - 1] == ms[i];
    if ms[0].version != ms[1].version && NeighboursDiffer(t) {
      forall i | 0 < i < |ms| ensures ms[i].version != ms[i - 1].version {
        if i > 1 {
          assert t[i - 1].version != t[i - 2].version;
        }
      }
    }
  }

  lemma {:induction false} LeastRecurs(ms: seq<Migration>)
    requires |ms| > 1 && Rising(ms)
    ensures ms[0].version in Versions(ms[1..]) <==> ms[0].version == ms[1].version
  {
    assert ms[1] in ms[1..];
    if ms[0].version in Versions(ms[1..]) {
      var m :| m in ms[1..] && m.version == ms[0].version;
      var j :| 1 <= j < |ms| && ms[j] == m;
    }
  }

  lemma {:induction false} NeighboursSuffice(ms: seq<Migration>)
    requires Rising(ms)
    ensures NeighboursDiffer(ms) <==> Distinct(ms)
  {
    if |ms| > 1 {
      NeighboursSuffice(ms[1..]);
      NeighboursOfTail(ms);
      LeastRecurs(ms);
    }
  }

  // ---- which files make which migrations ----

  predicate IsSql(f: File) { |f.name| >= 4 && f.name[|f.name| - 4..] == ".sql" }

  /** The file is called prefix_name.sql, its prefix scans to the version, and its text is the SQL. */
  predicate Named(scan: string -> Option<int>, f: File, prefix: string, m: Migration) {
    '_' !in prefix && f.name == prefix + "_" + m.name + ".sql" && scan(prefix) == Some(m.version) && m.sql == f.sql
  }

  lemma NameParses(scan: string -> Option<int>, f: File, prefix: string, m: Migration)
    requires Named(scan, f, prefix, m)
    ensures TrimSql(f.name) == Some(prefix + "_" + m.name) && ParseName(scan, prefix + "_" + m.name, f.sql) == Ok(m)
  {
    var base := prefix + "_" + m.name;
    assert f.name == base + ".sql" && f.name[..|f.name| - 4] == base && f.name[|f.name| - 4..] == ".sql";
    SplitAt(prefix, m.name, '_');
    SplitWhole(prefix, '_');
    assert ([prefix] + Split(m.name, '_'))[1..] == Split(m.name, '_');
    JoinOfSplit(m.name, '_');
  }

  lemma ParsedIsNamed(scan: string -> Option<int>, f: File, m: Migration)
    requires TrimSql(f.name).Some? && ParseName(scan, TrimSql(f.name).value, f.sql) == Ok(m)
    ensures exists prefix :: Named(scan, f, prefix, m)
  {
    var base := TrimSql(f.name).value;
    var parts := Split(base, '_');
    JoinOfSplit(base, '_');
    assert parts[0] in parts;
    assert base == parts[0] + "_" + Join(parts[1..], '_');
    assert f.name == base + ".sql";
    assert Named(scan, f, parts[0], m);
  }

  /** The parsed list holds exactly the migrations of the .sql files. */
  lemma {:induction false} ParsedAreNamed(scan: string -> Option<int>, files: seq<File>, m: Migration)
    requires ParseFiles(scan, files).Ok?
    ensures m in ParseFiles(scan, files).value <==> exists f, prefix :: f in files && Named(scan, f, prefix, m)
  {
    if files == [] {
    } else {
      var init, f := files[..|files| - 1], files[|files| - 1];
      ParsedAreNamed(scan, init, m);
      assert forall g :: g in files <==> g in init || g == f;
      if prefix :| Named(scan, f, prefix, m) {
        NameParses(scan, f, prefix, m);
        assert f in files;
      }
      if TrimSql(f.name).Some? && ParseName(scan, TrimSql(f.name).value, f.sql) == Ok(m) {
        ParsedIsNamed(scan, f, m);
        assert f in files;
      }
    }
  }

  /**
   A loaded list holds exactly the migrations of the .sql files: number before the first '_', name after it, the text.
   */
  lemma LoadedAreTheFiles(scan: string -> Option<int>, files: seq<File>, m: Migration)
    requires Loaded(scan, files).Ok?
    ensures m in Loaded(scan, files).value <==> exists f, prefix :: f in files && Named(scan, f, prefix, m)
  {
    LoadedIsAscending(scan, files);
    ParsedAreNamed(scan, files, m);
    var a, b := Loaded(scan, files).value, ParseFiles(scan, files).value;
    assert m in a <==> m in multiset(a);
    assert m in b <==> m in multiset(b);
  }

  /** Parsing fails exactly on a .sql file whose name has no such form. */
  lemma {:induction false} ParsesExactlyWhen(scan: string -> Option<int>, files: seq<File>)
    ensures ParseFiles(scan, files).Ok? <==> forall f :: f in files && IsSql(f) ==>
            exists prefix, m :: Named(scan, f, prefix, m)
  {
    if files == [] {
    } else {
      var init, f := files[..|files| - 1], files[|files| - 1];
      ParsesExactlyWhen(scan, init);
      assert f in files && forall g :: g in files <==> g in init || g == f;
      assert IsSql(f) <==> TrimSql(f.name).Some?;
      if prefix, m :| Named(scan, f, prefix, m) {
        NameParses(scan, f, prefix, m);
      }
      if TrimSql(f.name).Some? && ParseName(scan, TrimSql(f.name).value, f.sql).Ok? {
        ParsedIsNamed(scan, f, ParseName(scan, TrimSql(f.name).value, f.sql).value);
      }
    }
  }

  /** Loading fails exactly when a .sql name is malformed or two files share a version. */
  lemma {:induction false} LoadsExactlyWhen(scan: string -> Option<int>, files: seq<File>)
    ensures Loaded(scan, files).Ok? <==>
              && (forall f :: f in files && IsSql(f) ==> exists prefix, m :: Named(scan, f, prefix, m))
              && ParseFiles(scan, files).Ok? && Distinct(ParseFiles(scan, files).value)
  {
    ParsesExactlyWhen(scan, files);
    if ParseFiles(scan, files).Ok? {
      var ms := ParseFiles(scan, files).value;
      SortedIsRising(ms);
      SortedKeepsVersions(ms);
      NeighboursSuffice(Sorted(ms));
    }
  }

  // ---- the protocol ----

  /** A committed row of schema_migrations. */
  datatype Row = Row(version: int, name: string)

  type Pid = nat

  /** Where a process is within one round of the loop. */
  datatype Phase = Loop | Begun | Locked | Checked | Executed | Inserted

  /** `i` is the loop position, `current` the version read before the loop. */
  datatype Process = Booted | Running(phase: Phase, current: int, i: nat) | Finished

  /** `rows` and `ran` are the committed rows and SQL texts, oldest first. */
  datatype State = State(rows: seq<Row>, ran: seq<string>, lock: Option<Pid>, procs: map<Pid, Process>)

  datatype Step = Boot | ReadCurrent | Skip | Begin | Lock | Recheck | Exec | InsertRow | Commit | Finish | Crash

  /** COALESCE(MAX(version), 0). */
  function MaxVersion(rows: seq<Row>): int {
    if rows == [] then 0 else
    var rest := rows[..|rows| - 1];
    if rest == [] || rows[|rows| - 1].version > MaxVersion(rest) then rows[|rows| - 1].version else MaxVersion(rest)
  }

  function To(s: State, p: Pid, proc: Process): State { s.(procs := s.procs[p := proc]) }

  /** The advisory lock goes with the transaction that took it. */
  function Unlocked(s: State, p: Pid): Option<Pid> { if s.lock == Some(p) then None else s.lock }

  predicate At(proc: Process, phase: Phase, n: nat) { proc.Running? && proc.phase == phase && proc.i < n }

  /** One statement of process `p`. A crash or an SQL error drops its transaction and its lock. */
  predicate NextBy(migs: seq<Migration>, s: State, p: Pid, step: Step, s': State) {
    if step == Boot then p !in s.procs && s' == To(s, p, Booted)
    else if step == Crash then p in s.procs && s' == s.(procs := s.procs - {p}, lock := Unlocked(s, p))
    else p in s.procs && StepBy(migs, s, p, s.procs[p], step, s')
  }

  predicate StepBy(migs: seq<Migration>, s: State, p: Pid, proc: Process, step: Step, s': State) {
    match step
    case ReadCurrent => proc.Booted? && s' == To(s, p, Running(Loop, MaxVersion(s.rows), 0))
    case Skip => At(proc, Loop, |migs|) && migs[proc.i].version <= proc.current
        && s' == To(s, p, proc.(i := proc.i + 1))
    case Begin => At(proc, Loop, |migs|) && migs[proc.i].version > proc.current && s' == To(s, p, proc.(phase := Begun))
    case Lock => At(proc, Begun, |migs|) && s.lock == None && s' == To(s, p, proc.(phase := Locked)).(lock := Some(p))
    case Recheck =>
      && At(proc, Locked, |migs|)
      && s' == if migs[proc.i].version <= MaxVersion(s.rows)
               then To(s, p, proc.(phase := Loop, i := proc.i + 1)).(lock := Unlocked(s, p))
               else To(s, p, proc.(phase := Checked))
    case Exec => At(proc, Checked, |migs|) && s' == To(s, p, proc.(phase := Executed))
    case InsertRow =>
      && At(proc, Executed, |migs|) && (forall r :: r in s.rows ==> r.version != migs[proc.i].version)
      && s' == To(s, p, proc.(phase := Inserted))
    case Commit =>
      && At(proc, Inserted, |migs|)
      && var m := migs[proc.i];
         s' == State(s.rows + [Row(m.version, m.name)], s.ran + [m.sql], Unlocked(s, p),
             s.procs[p := proc.(phase := Loop, i := proc.i + 1)])
    case Finish => proc.Running? && proc.phase == Loop && proc.i == |migs| && s' == To(s, p, Finished)
    case _ => false
  }

  ghost predicate Next(migs: seq<Migration>, s: State, s': State) { exists p, step :: NextBy(migs, s, p, step, s') }

  /** A run from an empty database. */
  ghost predicate IsRun(migs: seq<Migration>, ss: seq<State>) {
    && |ss| > 0 && ss[0] == State([], [], None, map[])
    && forall i :: 0 <= i < |ss| - 1 ==> Next(migs, ss[i], ss[i + 1])
  }

  // ---- the invariant ----

  function RowsOf(ms: seq<Migration>): (r: seq<Row>)
    ensures |r| == |ms|
  {
    seq(|ms|, i requires 0 <= i < |ms| => Row(ms[i].version, ms[i].name))
  }

  function SqlOf(ms: seq<Migration>): (r: seq<string>)
    ensures |r| == |ms|
  {
    seq(|ms|, i requires 0 <= i < |ms| => ms[i].sql)
  }

  /** The migrations with a version of at least 1: the others never count as pending. */
  function Pending(ms: seq<Migration>): seq<Migration> {
    if ms == [] || ms[0].version >= 1 then ms else Pending(ms[1..])
  }

  predicate HoldsLock(proc: Process) { proc.Running? && proc.phase != Loop && proc.phase != Begun }

  predicate PastCheck(proc: Process) { HoldsLock(proc) && proc.phase != Locked }

  /** `z` migrations are never pending and n are committed: a process is at most one round ahead. */
  predicate ProcOk(migs: seq<Migration>, z: nat, rows: seq<Row>, lock: Option<Pid>, p: Pid, proc: Process) {
    && (proc.Finished? ==> |rows| == |migs| - z)
    && (proc.Running? ==> proc.i <= |migs| && proc.i <= z + |rows| && proc.current <= MaxVersion(rows))
    && (proc.Running? && proc.phase != Loop ==> proc.i < |migs|)
    && (HoldsLock(proc) ==> lock == Some(p))
    && (PastCheck(proc) ==> proc.i == z + |rows|)
  }

  predicate CommittedOk(migs: seq<Migration>, z: nat, rows: seq<Row>, ran: seq<string>) {
    z + |rows| <= |migs| && rows == RowsOf(migs[z..z + |rows|]) && ran == SqlOf(migs[z..z + |rows|])
  }

  ghost predicate StateOk(migs: seq<Migration>, z: nat, s: State) {
    && CommittedOk(migs, z, s.rows, s.ran)
    && forall p :: p in s.procs ==> ProcOk(migs, z, s.rows, s.lock, p, s.procs[p])
  }

  /** Where the pending part starts. */
  function Skipped(migs: seq<Migration>): (z: nat)
    ensures z <= |migs| && (forall i :: 0 <= i < z ==> migs[i].version <= 0) && (z < |migs| ==> migs[z].version >= 1)
    ensures Pending(migs) == migs[z..]
  {
    if migs == [] || migs[0].version >= 1 then 0 else
    assert migs[1..][Skipped(migs[1..])..] == migs[1 + Skipped(migs[1..])..];
    1 + Skipped(migs[1..])
  }

  function PrefixMax(migs: seq<Migration>, z: nat, n: nat): int
    requires z + n <= |migs|
  {
    if n == 0 then 0 else migs[z + n - 1].version
  }

  lemma {:induction false} MaxOfPrefix(migs: seq<Migration>, z: nat, n: nat)
    requires Ascending(migs) && z + n <= |migs|
    ensures MaxVersion(RowsOf(migs[z..z + n])) == PrefixMax(migs, z, n)
  {
    if n == 0 {
    } else {
      MaxOfPrefix(migs, z, n - 1);
      assert RowsOf(migs[z..z + n])[..n - 1] == RowsOf(migs[z..z + n - 1]);
    }
  }

  lemma {:induction false} MaxOfCommitted(migs: seq<Migration>, z: nat, rows: seq<Row>, ran: seq<string>)
    requires Ascending(migs) && CommittedOk(migs, z, rows, ran)
    ensures MaxVersion(rows) == PrefixMax(migs, z, |rows|)
  {
    MaxOfPrefix(migs, z, |rows|);
  }

  lemma {:induction false} BelowPrefixMax(migs: seq<Migration>, i: nat, n: nat)
    requires Ascending(migs) && i < |migs| && Skipped(migs) + n <= |migs|
    ensures migs[i].version <= PrefixMax(migs, Skipped(migs), n) <==> i < Skipped(migs) + n
  {
    var last := Skipped(migs) + n - 1;
    if n > 0 && i != last {
      assert if i < last then migs[i].version < migs[last].version else migs[last].version < migs[i].version;
    } else if n == 0 && i > last + 1 {
      assert migs[last + 1].version < migs[i].version;
    }
  }

  /** Against a committed prefix, a version is at most the maximum exactly when it is applied or never pending. */
  lemma {:induction false} AppliedExactlyWhen(migs: seq<Migration>, rows: seq<Row>, ran: seq<string>, i: nat)
    requires Ascending(migs) && CommittedOk(migs, Skipped(migs), rows, ran) && i < |migs|
    ensures migs[i].version <= MaxVersion(rows) <==> i < Skipped(migs) + |rows|
  {
    MaxOfCommitted(migs, Skipped(migs), rows, ran);
    BelowPrefixMax(migs, i, |rows|);
  }

  /** Committing the migration at z + n extends the prefix by it, and the maximum does not go back. */
  lemma {:induction false} PrefixGrows(migs: seq<Migration>, z: nat, rows: seq<Row>, ran: seq<string>)
    requires CommittedOk(migs, z, rows, ran) && z + |rows| < |migs|
    ensures var m := migs[z + |rows|]; CommittedOk(migs, z, rows + [Row(m.version, m.name)], ran + [m.sql])
  {
    var n := |rows|;
    assert migs[z..z + n + 1] == migs[z..z + n] + [migs[z + n]];
  }

  lemma {:induction false} MaxGrows(rows: seq<Row>, r: Row)
    requires r.version > MaxVersion(rows)
    ensures MaxVersion(rows) < MaxVersion(rows + [r])
  {
    assert (rows + [r])[..|rows|] == rows;
  }

  lemma {:induction false} CommitKeepsOthers(migs: seq<Migration>, z: nat, s: State, p: Pid, s': State, q: Pid)
    requires NextBy(migs, s, p, Commit, s') && q in s'.procs && s.procs[p].i == z + |s.rows| && s.lock == Some(p)
    requires MaxVersion(s.rows) <= MaxVersion(s'.rows) && ProcOk(migs, z, s.rows, s.lock, q, s.procs[q])
    ensures ProcOk(migs, z, s'.rows, s'.lock, q, s'.procs[q])
  {
  }

  lemma {:induction false} CommitKeepsOk(migs: seq<Migration>, s: State, p: Pid, s': State)
    requires Ascending(migs) && StateOk(migs, Skipped(migs), s) && NextBy(migs, s, p, Commit, s')
    ensures StateOk(migs, Skipped(migs), s')
  {
    var z, i := Skipped(migs), s.procs[p].i;
    assert ProcOk(migs, z, s.rows, s.lock, p, s.procs[p]);
    AppliedExactlyWhen(migs, s.rows, s.ran, i);
    PrefixGrows(migs, z, s.rows, s.ran);
    MaxGrows(s.rows, Row(migs[i].version, migs[i].name));
    forall q | q in s'.procs ensures ProcOk(migs, z, s'.rows, s'.lock, q, s'.procs[q]) {
      CommitKeepsOthers(migs, z, s, p, s', q);
    }
  }

  /** The other processes only see the lock taken from nobody or given back by `p`. */
  lemma {:induction false} OthersUntouched(migs: seq<Migration>, s: State, p: Pid, step: Step, s': State, q: Pid)
    requires step != Commit && NextBy(migs, s, p, step, s')
    ensures s'.rows == s.rows && s'.ran == s.ran
    ensures q != p && q in s'.procs ==> q in s.procs && s'.procs[q] == s.procs[q]
    ensures q != p && s.lock == Some(q) ==> s'.lock == Some(q)
  {
  }

  lemma {:induction false} MoverOk(migs: seq<Migration>, z: nat, s: State, p: Pid, step: Step, s': State)
    requires step != Commit && NextBy(migs, s, p, step, s') && p in s'.procs
    requires p in s.procs ==> ProcOk(migs, z, s.rows, s.lock, p, s.procs[p])
    requires p in s.procs && s.procs[p].Running? && s.procs[p].i < |migs| ==>
               (migs[s.procs[p].i].version <= MaxVersion(s.rows) <==> s.procs[p].i < z + |s.rows|)
    requires z + |s.rows| <= |migs|
    ensures ProcOk(migs, z, s.rows, s'.lock, p, s'.procs[p])
  {
  }

  lemma {:induction false} ProcStaysOk(migs: seq<Migration>, s: State, p: Pid, step: Step, s': State, q: Pid)
    requires Ascending(migs) && StateOk(migs, Skipped(migs), s) && step != Commit && NextBy(migs, s, p, step, s')
             && q in s'.procs
    ensures ProcOk(migs, Skipped(migs), s.rows, s'.lock, q, s'.procs[q])
  {
    if q != p {
      OthersUntouched(migs, s, p, step, s', q);
      assert ProcOk(migs, Skipped(migs), s.rows, s.lock, q, s.procs[q]);
    } else {
      if p in s.procs && s.procs[p].Running? && s.procs[p].i < |migs| {
        AppliedExactlyWhen(migs, s.rows, s.ran, s.procs[p].i);
      }
      MoverOk(migs, Skipped(migs), s, p, step, s');
    }
  }

  lemma {:induction false} OtherStepKeepsOk(migs: seq<Migration>, s: State, p: Pid, step: Step, s': State)
    requires Ascending(migs) && StateOk(migs, Skipped(migs), s) && step != Commit && NextBy(migs, s, p, step, s')
    ensures StateOk(migs, Skipped(migs), s')
  {
    OthersUntouched(migs, s, p, step, s', p);
    forall q | q in s'.procs ensures ProcOk(migs, Skipped(migs), s'.rows, s'.lock, q, s'.procs[q]) {
      ProcStaysOk(migs, s, p, step, s', q);
    }
  }

  lemma {:induction false} RunKeepsOk(migs: seq<Migration>, ss: seq<State>, n: nat)
    requires Ascending(migs) && IsRun(migs, ss) && n < |ss|
    ensures StateOk(migs, Skipped(migs), ss[n])
  {
    if n == 0 {
    } else {
      RunKeepsOk(migs, ss, n - 1);
      assert Next(migs, ss[n - 1], ss[n - 1 + 1]);
      var p, step :| NextBy(migs, ss[n - 1], p, step, ss[n]);
      if step == Commit {
        CommitKeepsOk(migs, ss[n - 1], p, ss[n]);
      } else {
        OtherStepKeepsOk(migs, ss[n - 1], p, step, ss[n]);
      }
    }
  }

  /**
   In every reachable state the committed rows and the committed SQL are the same prefix of the pending list:
   each migration commits at most once, in order and together with its row. A process that finishes its loop
   leaves all of it applied.
   */
  lemma {:induction false} CommittedIsAPrefix(migs: seq<Migration>, ss: seq<State>, n: nat)
    requires Ascending(migs) && IsRun(migs, ss) && n < |ss|
    ensures var done := |ss[n].rows|;
            && done <= |Pending(migs)| && ss[n].rows == RowsOf(Pending(migs)[..done])
                && ss[n].ran == SqlOf(Pending(migs)[..done])
            && ((exists p :: p in ss[n].procs && ss[n].procs[p] == Finished) ==> ss[n].ran == SqlOf(Pending(migs)))
  {
    RunKeepsOk(migs, ss, n);
    var z, done := Skipped(migs), |ss[n].rows|;
    assert migs[z..z + done] == Pending(migs)[..done];
    if p :| p in ss[n].procs && ss[n].procs[p] == Finished {
      assert ProcOk(migs, z, ss[n].rows, ss[n].lock, p, ss[n].procs[p]);
      assert Pending(migs)[..done] == Pending(migs);
    }
  }

  /** A finished process has applied the whole embedded list exactly when no version is below 1. */
  lemma {:induction false} WholeListExactlyWhen(migs: seq<Migration>, ss: seq<State>, n: nat, p: Pid)
    requires Ascending(migs) && IsRun(migs, ss) && n < |ss| && p in ss[n].procs && ss[n].procs[p] == Finished
    ensures ss[n].rows == RowsOf(migs) <==> (forall m :: m in migs ==> m.version >= 1)
  {
    CommittedIsAPrefix(migs, ss, n);
    var z := Skipped(migs);
    RunKeepsOk(migs, ss, n);
    assert ProcOk(migs, z, ss[n].rows, ss[n].lock, p, ss[n].procs[p]);
    if z == 0 {
      assert migs[0..|migs|] == migs;
      forall m | m in migs ensures m.version >= 1 {
        var i :| 0 <= i < |migs| && migs[i] == m;
        assert i == 0 || migs[0].version < migs[i].version;
      }
    } else {
      assert migs[0] in migs && |ss[n].rows| < |RowsOf(migs)|;
    }
  }

  // ---- one process with nobody else booting ----

  /** What the loop appends when it starts on these rows. */
  function Above(ms: seq<Migration>, v: int): seq<Migration> {
    if ms == [] then [] else Above(ms[..|ms| - 1], v) + (if ms[|ms| - 1].version > v then [ms[|ms| - 1]] else [])
  }

  class Database {
    var rows: seq<Row>
    var ran: seq<string>

    /** The loop of Migrate; every transaction finds the lock free. */
    method Migrate(migs: seq<Migration>)
      requires Ascending(migs)
      modifies this
      ensures rows == old(rows) + RowsOf(Above(migs, MaxVersion(old(rows))))
      ensures ran == old(ran) + SqlOf(Above(migs, MaxVersion(old(rows))))
    {
      var current := MaxVersion(rows);
      ghost var rows0, ran0 := rows, ran;
      for i := 0 to |migs|
        invariant rows == rows0 + RowsOf(Above(migs[..i], current)) && ran == ran0 + SqlOf(Above(migs[..i], current))
        invariant MaxVersion(rows) == current || (i > 0 && MaxVersion(rows) <= migs[i - 1].version)
      {
        var m := migs[i];
        assert migs[..i + 1][..i] == migs[..i];
        if m.version <= current {
          continue;
        }
        var max := MaxVersion(rows);
        if m.version <= max {
          continue;
        }
        assert (rows + [Row(m.version, m.name)])[..|rows|] == rows;
        ran := ran + [m.sql];
        rows := rows + [Row(m.version, m.name)];
      }
      assert migs[..|migs|] == migs;
    }
  }
}
