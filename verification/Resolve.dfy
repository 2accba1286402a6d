/**
 Finding the source map of a frame among a release's artifacts: an index by name and by debug id,
 last writer wins, tried stage by stage.
 */
module Resolve {
  import opened Wrappers
  import opened Symbolicate
  import opened Text

  /** body is "" when no body was loaded. */
  datatype Artifact = Artifact(name: string, dist: string, sha: string, debugId: string, sourcemapUrl: string,
      body: string)

  /** JSON, base64 and URL library calls. */
  datatype Library = Library(parseMap: string -> Option<Document>,
                             parseInline: string -> Option<Document>,
                             resolveUrl: (string, string) -> Option<string>)

  datatype Hit = Hit(artifact: Artifact, document: Document)

  // ---- strings ----

  /** Strips white space, query, fragment, scheme and host. */
  function NormalizePath(path: string): string {
    var s := BeforeQuery(TrimRight(TrimLeft(path)));
    var i := Index(s, "://");
    IndexBounds(s, "://");
    if i < 0 then s else
    var rest := s[i + 3..];
    IndexBounds(rest, "/");
    if Index(rest, "/") < 0 then s else rest[Index(rest, "/")..]
  }

  /** The part after the last '/'. */
  function PathBase(p: string): string {
    if p == "" || p[|p| - 1] == '/' then "" else PathBase(p[..|p| - 1]) + [p[|p| - 1]]
  }

  /** The part before the last '/', "" when there is none. */
  function DirOf(p: string): string {
    if p == "" then "" else if p[|p| - 1] == '/' then p[..|p| - 1] else DirOf(p[..|p| - 1])
  }

  /** Base and directory are the text after and before the last '/'. */
  lemma {:induction false} LastSlash(p: string)
    ensures '/' !in PathBase(p)
    ensures if '/' in p then p == DirOf(p) + "/" + PathBase(p) else DirOf(p) == "" && PathBase(p) == p
  {
    if p != "" && p[|p| - 1] != '/' {
      var init, c := p[..|p| - 1], p[|p| - 1];
      LastSlash(init);
      assert p == init + [c];
      if '/' in init {
        assert DirOf(init) + "/" + PathBase(init) + [c] == DirOf(init) + "/" + (PathBase(init) + [c]);
      } else {
        assert '/' !in p;
      }
    }
  }

  /** The segments that survive: "" and "." vanish, ".." takes one back. */
  function Cleaned(segs: seq<string>): seq<string> {
    if segs == [] then [] else
    var out, s := Cleaned(segs[..|segs| - 1]), segs[|segs| - 1];
    if s == "" || s == "." then out
    else if s == ".." then (if |out| > 0 then out[..|out| - 1] else out)
    else out + [s]
  }

  function CleanPath(p: string): string {
    (if HasPrefix(p, "/") then "/" else "") + Join(Cleaned(Split(p, '/')), '/')
  }

  method CleanPathLoop(p: string) returns (r: string)
    ensures r == CleanPath(p)
  {
    var segs := Split(p, '/');
    var out: seq<string> := [];
    for i := 0 to |segs|
      invariant out == Cleaned(segs[..i])
    {
      var s := segs[i];
      assert segs[..i + 1][..i] == segs[..i];
      if s == "" || s == "." {
        continue;
      } else if s == ".." {
        if |out| > 0 {
          out := out[..|out| - 1];
        }
      } else {
        out := out + [s];
      }
    }
    assert segs[..|segs|] == segs;
    r := (if HasPrefix(p, "/") then "/" else "") + Join(out, '/');
  }

  predicate Proper(s: string) { s != "" && s != "." && s != ".." && '/' !in s }

  predicate AllProper(segs: seq<string>) { forall s :: s in segs ==> Proper(s) }

  lemma {:induction false} CleanedIsProper(segs: seq<string>)
    requires forall s :: s in segs ==> '/' !in s
    ensures AllProper(Cleaned(segs))
  {
    if segs == [] {
    } else {
      CleanedIsProper(segs[..|segs| - 1]);
      assert segs[|segs| - 1] in segs;
    }
  }

  lemma {:induction false} ProperStays(segs: seq<string>)
    requires AllProper(segs)
    ensures Cleaned(segs) == segs
  {
    if segs == [] {
    } else {
      ProperStays(segs[..|segs| - 1]);
      assert segs[|segs| - 1] in segs && segs == segs[..|segs| - 1] + [segs[|segs| - 1]];
    }
  }

  lemma {:induction false} EmptyHeadVanishes(segs: seq<string>)
    ensures Cleaned([""] + segs) == Cleaned(segs)
  {
    if segs == [] {
      assert [""][..0] == [] && [""] + segs == [""];
    } else {
      EmptyHeadVanishes(segs[..|segs| - 1]);
      assert ([""] + segs)[..|segs|] == [""] + segs[..|segs| - 1];
    }
  }

  /** Joined proper segments split into themselves, after an empty one for a leading slash. */
  lemma {:induction false} JoinedIsClean(out: seq<string>)
    requires AllProper(out)
    ensures Cleaned(Split(Join(out, '/'), '/')) == out && Cleaned(Split("/" + Join(out, '/'), '/')) == out
  {
    var j := Join(out, '/');
    ProperStays(out);
    assert ("/" + j)[1..] == j;
    EmptyHeadVanishes(Split(j, '/'));
    if out == [] {
      assert Cleaned([""]) == Cleaned([]) by { EmptyHeadVanishes([]); }
    } else {
      SplitOfJoin(out, '/');
    }
  }

  lemma NoLeadingSlash(out: seq<string>)
    requires AllProper(out)
    ensures !HasPrefix(Join(out, '/'), "/") && HasPrefix("/" + Join(out, '/'), "/")
  {
    var j := Join(out, '/');
    assert ("/" + j)[..1] == "/";
    if out != [] {
      assert out[0] in out;
      assert j[0] == out[0][0] && out[0][0] in out[0];
    }
  }

  lemma {:induction false} CleanOfJoined(out: seq<string>)
    requires AllProper(out)
    ensures CleanPath(Join(out, '/')) == Join(out, '/') && CleanPath("/" + Join(out, '/')) == "/" + Join(out, '/')
  {
    JoinedIsClean(out);
    NoLeadingSlash(out);
    assert "" + Join(out, '/') == Join(out, '/');
  }

  /** A cleaned path has no empty, "." or ".." segment left, and cleaning it again changes nothing. */
  lemma {:induction false} CleanPathIsFixed(p: string)
    ensures AllProper(Cleaned(Split(p, '/')))
    ensures CleanPath(CleanPath(p)) == CleanPath(p)
  {
    JoinOfSplit(p, '/');
    CleanedIsProper(Split(p, '/'));
    CleanOfJoined(Cleaned(Split(p, '/')));
    assert "" + Join(Cleaned(Split(p, '/')), '/') == Join(Cleaned(Split(p, '/')), '/');
  }

  function JoinReference(lib: Library, base: string, ref: string): string {
    var absolute := HasPrefix(base, "http://") || HasPrefix(base, "https://");
    var resolved := if absolute then lib.resolveUrl(base, ref) else None;
    if resolved.Some? then resolved.value
    else if HasPrefix(ref, "/") || DirOf(base) == "" then CleanPath(ref)
    else CleanPath(DirOf(base) + "/" + ref)
  }

  // ---- candidates ----

  function Exact(arts: seq<Artifact>, dist: string): seq<Artifact> {
    if arts == [] then [] else
    var a := arts[|arts| - 1];
    Exact(arts[..|arts| - 1], dist) + (if a.dist != "" && dist != "" && a.dist == dist then [a] else [])
  }

  function Bare(arts: seq<Artifact>): seq<Artifact> {
    if arts == [] then [] else
    var a := arts[|arts| - 1];
    Bare(arts[..|arts| - 1]) + (if a.dist == "" then [a] else [])
  }

  /** What an event of this dist may use: the uploads of its dist, followed by those of no dist. */
  method Candidates(arts: seq<Artifact>, dist: string) returns (cands: seq<Artifact>)
    ensures cands == Exact(arts, dist) + Bare(arts)
  {
    var exact, bare: seq<Artifact> := [], [];
    for i := 0 to |arts|
      invariant exact == Exact(arts[..i], dist) && bare == Bare(arts[..i])
    {
      assert arts[..i + 1][..i] == arts[..i];
      if arts[i].dist == "" {
        bare := bare + [arts[i]];
      } else if dist != "" && arts[i].dist == dist {
        exact := exact + [arts[i]];
      }
    }
    assert arts[..|arts|] == arts;
    cands := exact + bare;
  }

  lemma {:induction false} CandidatesAreVisible(arts: seq<Artifact>, dist: string)
    ensures forall a :: a in Exact(arts, dist) <==> a in arts && a.dist != "" && a.dist == dist
    ensures forall a :: a in Bare(arts) <==> a in arts && a.dist == ""
  {
    if arts == [] {
    } else {
      CandidatesAreVisible(arts[..|arts| - 1], dist);
      assert arts == arts[..|arts| - 1] + [arts[|arts| - 1]];
    }
  }

  // ---- the naive scan ----

  /** The names an artifact is registered under. */
  predicate RegisteredAs(a: Artifact, key: string) {
    a.name == key || NormalizePath(a.name) == key
        || (PathBase(a.name) != "" && PathBase(a.name) != a.name && PathBase(a.name) == key)
  }

  /** The last element that satisfies `p`. */
  function Last<T>(s: seq<T>, p: T -> bool): Option<T> {
    if s == [] then None else if p(s[|s| - 1]) then Some(s[|s| - 1]) else Last(s[..|s| - 1], p)
  }

  function Named(key: string): Artifact -> bool { (a: Artifact) => RegisteredAs(a, key) }

  function Tagged(id: string): Artifact -> bool { (a: Artifact) => a.debugId != "" && a.debugId == id }

  function LastNamed(cands: seq<Artifact>, key: string): Option<Artifact> { Last(cands, Named(key)) }

  function LastDebug(cands: seq<Artifact>, id: string): Option<Artifact> { Last(cands, Tagged(id)) }

  /** The path itself, then its bare file name. */
  function FindArtifact(cands: seq<Artifact>, path: string): Option<Artifact> {
    var a := LastNamed(cands, path);
    if a.Some? then a else LastNamed(cands, PathBase(path))
  }

  /** The artifact's own body as a map. */
  function Parsed(lib: Library, a: Option<Artifact>): Option<Hit> {
    if a.None? || a.value.body == "" then None else
    match lib.parseMap(a.value.body)
    case None => None
    case Some(d) => Some(Hit(a.value, d))
  }

  /** Stage 1: the first image debug id that leads to a map. */
  function ByImages(lib: Library, cands: seq<Artifact>, ids: seq<string>): Option<Hit>
    decreases |ids|
  {
    if ids == [] then None else
    var hit := Parsed(lib, LastDebug(cands, ToLower(ids[0])));
    if hit.Some? then hit else ByImages(lib, cands, ids[1..])
  }

  /** Stage 2: the minified artifact's own debug id. */
  function ByOwnDebugId(lib: Library, cands: seq<Artifact>, path: string): Option<Hit> {
    match FindArtifact(cands, path)
    case None => None
    case Some(art) => if art.debugId == "" then None else Parsed(lib, LastDebug(cands, art.debugId))
  }

  /** Stage 3: its sourceMappingURL, inline or by name. */
  function BySourcemapUrl(lib: Library, cands: seq<Artifact>, path: string): Option<Hit> {
    match FindArtifact(cands, path)
    case None => None
    case Some(art) =>
      if art.sourcemapUrl == "" then None
      else if HasPrefix(ToLower(art.sourcemapUrl), "data:") then
        (match lib.parseInline(art.sourcemapUrl) case None => None case Some(d) => Some(Hit(art, d)))
      else
        var base := if path == "" then NormalizePath(art.name) else path;
        Parsed(lib, FindArtifact(cands, JoinReference(lib, base, art.sourcemapUrl)))
  }

  /** Stage 4: path + ".map". */
  function ByMapSuffix(lib: Library, cands: seq<Artifact>, path: string): Option<Hit> {
    Parsed(lib, FindArtifact(cands, path + ".map"))
  }

  function Else(a: Option<Hit>, b: Option<Hit>): Option<Hit> { if a.Some? then a else b }

  /** The naive answer: the stages in order, each a scan over the candidates. */
  function Answer(lib: Library, arts: seq<Artifact>, dist: string, absPath: string, ids: seq<string>): Option<Hit> {
    var cands, p := Exact(arts, dist) + Bare(arts), NormalizePath(absPath);
    Else(ByImages(lib, cands, ids),
        Else(ByOwnDebugId(lib, cands, p), Else(BySourcemapUrl(lib, cands, p), ByMapSuffix(lib, cands, p))))
  }

  // ---- the index ----

  type ArtifactMap = map<string, Artifact>

  function At(m: ArtifactMap, key: string): Option<Artifact> { if key in m then Some(m[key]) else None }

  lemma LastOfAppend(before: seq<Artifact>, a: Artifact, key: string)
    ensures LastNamed(before + [a], key) == if RegisteredAs(a, key) then Some(a) else LastNamed(before, key)
    ensures LastDebug(before + [a], key) == if a.debugId != "" && a.debugId == key then Some(a)
            else LastDebug(before, key)
  {
    assert (before + [a])[..|before + [a]| - 1] == before;
  }

  /** The maps ResolveMap fills, one candidate after the other. */
  class NameIndex {
    var byName: ArtifactMap
    var byDebug: ArtifactMap

    /** The index answers every key as the scan over `cands` does. */
    ghost predicate Indexes(cands: seq<Artifact>)
      reads this
    {
      forall key :: At(byName, key) == LastNamed(cands, key) && At(byDebug, key) == LastDebug(cands, key)
    }

    constructor (cands: seq<Artifact>)
      ensures Indexes(cands)
    {
      byName, byDebug := map[], map[];
      new;
      for i := 0 to |cands|
        invariant Indexes(cands[..i])
      {
        Add(cands[..i], cands[i]);
        assert cands[..i] + [cands[i]] == cands[..i + 1];
      }
      assert cands[..|cands|] == cands;
    }

    method Add(ghost before: seq<Artifact>, a: Artifact)
      requires Indexes(before)
      modifies this
      ensures Indexes(before + [a])
    {
      byName := byName[a.name := a];
      byName := byName[NormalizePath(a.name) := a];
      var b := PathBase(a.name);
      if b != "" && b != a.name {
        byName := byName[b := a];
      }
      if a.debugId != "" {
        byDebug := byDebug[a.debugId := a];
      }
      forall key ensures At(byName, key) == LastNamed(before + [a], key)
          && At(byDebug, key) == LastDebug(before + [a], key) {
        LastOfAppend(before, a, key);
      }
    }

    method FindArt(path: string, ghost cands: seq<Artifact>) returns (a: Option<Artifact>)
      requires Indexes(cands)
      ensures a == FindArtifact(cands, path)
    {
      a := At(byName, path);
      if a.None? {
        a := At(byName, PathBase(path));
      }
    }
  }

  /** The indexed search. */
  method ResolveMap(lib: Library, arts: seq<Artifact>, dist: string, absPath: string, ids: seq<string>)
      returns (r: Option<Hit>)
    ensures r == Answer(lib, arts, dist, absPath, ids)
  {
    var p := NormalizePath(absPath);
    var cands := Candidates(arts, dist);
    var index := new NameIndex(cands);
    var i := 0;
    while i < |ids|
      invariant i <= |ids| && index.Indexes(cands)
      invariant ByImages(lib, cands, ids) == ByImages(lib, cands, ids[i..])
    {
      r := Parsed(lib, At(index.byDebug, ToLower(ids[i])));
      if r.Some? {
        return;
      }
      assert ids[i..][1..] == ids[i + 1..];
      i := i + 1;
    }
    assert ids[i..] == [];
    var art := index.FindArt(p, cands);
    if art.Some? {
      if art.value.debugId != "" {
        r := Parsed(lib, At(index.byDebug, art.value.debugId));
        if r.Some? {
          return;
        }
      }
      if art.value.sourcemapUrl != "" {
        if HasPrefix(ToLower(art.value.sourcemapUrl), "data:") {
          var d := lib.parseInline(art.value.sourcemapUrl);
          if d.Some? {
            return Some(Hit(art.value, d.value));
          }
        } else {
          var base := if p == "" then NormalizePath(art.value.name) else p;
          var a := index.FindArt(JoinReference(lib, base, art.value.sourcemapUrl), cands);
          r := Parsed(lib, a);
          if r.Some? {
            return;
          }
        }
      }
    }
    var fallback := index.FindArt(p + ".map", cands);
    r := Parsed(lib, fallback);
  }

  // ---- what the answer can and cannot be ----

  /** The last one by its position. */
  predicate IsLast<T(==)>(s: seq<T>, p: T -> bool, x: T) {
    exists i :: 0 <= i < |s| && s[i] == x && p(x) && forall j :: i < j < |s| ==> !p(s[j])
  }

  /** An element that fails `p` at the end changes no answer. */
  lemma IsLastBefore<T>(init: seq<T>, last: T, p: T -> bool, x: T)
    requires !p(last)
    ensures IsLast(init + [last], p, x) <==> IsLast(init, p, x)
  {
    var s := init + [last];
    assert forall j :: 0 <= j < |init| ==> s[j] == init[j];
    if IsLast(init, p, x) {
      var i :| 0 <= i < |init| && init[i] == x && p(x) && forall j :: i < j < |init| ==> !p(init[j]);
      assert s[i] == x;
    }
  }

  lemma {:induction false} LastIs<T>(s: seq<T>, p: T -> bool, x: T)
    ensures Last(s, p) == Some(x) <==> IsLast(s, p, x)
    ensures Last(s, p).None? <==> forall y :: y in s ==> !p(y)
    ensures Last(s, p) == Some(x) ==> x in s && p(x)
  {
    if s == [] {
    } else {
      var init, last := s[..|s| - 1], s[|s| - 1];
      assert s == init + [last];
      if !p(last) {
        LastIs(init, p, x);
        IsLastBefore(init, last, p, x);
      }
    }
  }

  lemma LastIsCandidate(cands: seq<Artifact>, p: Artifact -> bool)
    ensures Last(cands, p).Some? ==> Last(cands, p).value in cands && p(Last(cands, p).value)
    ensures Last(cands, p).None? <==> forall a :: a in cands ==> !p(a)
  {
    if Last(cands, p).Some? {
      LastIs(cands, p, Last(cands, p).value);
    } else {
      forall a | a in cands ensures !p(a) {
        LastIs(cands, p, a);
      }
    }
  }

  lemma {:induction false} ImageHitIsCandidate(lib: Library, cands: seq<Artifact>, ids: seq<string>)
    ensures var r := ByImages(lib, cands, ids); r.Some? ==> r.value.artifact in cands
    decreases |ids|
  {
    if ids == [] {
    } else {
      LastIsCandidate(cands, Tagged(ToLower(ids[0])));
      ImageHitIsCandidate(lib, cands, ids[1..]);
    }
  }

  lemma FoundIsCandidate(cands: seq<Artifact>, path: string)
    ensures var r := FindArtifact(cands, path); r.Some? ==> r.value in cands
  {
    LastIsCandidate(cands, Named(path));
    LastIsCandidate(cands, Named(PathBase(path)));
  }

  lemma LaterHitIsCandidate(lib: Library, cands: seq<Artifact>, p: string)
    ensures var r := ByOwnDebugId(lib, cands, p); r.Some? ==> r.value.artifact in cands
    ensures var r := BySourcemapUrl(lib, cands, p); r.Some? ==> r.value.artifact in cands
    ensures var r := ByMapSuffix(lib, cands, p); r.Some? ==> r.value.artifact in cands
  {
    FoundIsCandidate(cands, p);
    FoundIsCandidate(cands, p + ".map");
    var art := FindArtifact(cands, p);
    if art.Some? {
      LastIsCandidate(cands, Tagged(art.value.debugId));
      var base := if p == "" then NormalizePath(art.value.name) else p;
      FoundIsCandidate(cands, JoinReference(lib, base, art.value.sourcemapUrl));
    }
  }

  /** Whatever is found was uploaded for the release, without a dist or for the event's own. */
  lemma NeverAnotherDist(lib: Library, arts: seq<Artifact>, dist: string, absPath: string, ids: seq<string>)
    ensures var r := Answer(lib, arts, dist, absPath, ids);
            r.Some? ==> r.value.artifact in arts && (r.value.artifact.dist == "" || r.value.artifact.dist == dist)
  {
    var cands := Exact(arts, dist) + Bare(arts);
    CandidatesAreVisible(arts, dist);
    ImageHitIsCandidate(lib, cands, ids);
    LaterHitIsCandidate(lib, cands, NormalizePath(absPath));
  }

  lemma {:induction false} ImagesFailExactlyWhen(lib: Library, cands: seq<Artifact>, ids: seq<string>)
    ensures ByImages(lib, cands, ids).None? <==>
              forall id :: id in ids ==> Parsed(lib, LastDebug(cands, ToLower(id))).None?
    decreases |ids|
  {
    if ids == [] {
    } else {
      ImagesFailExactlyWhen(lib, cands, ids[1..]);
      assert ids == [ids[0]] + ids[1..];
    }
  }

  // ---- the lookups without the scans ----

  predicate IsLastNamed(cands: seq<Artifact>, key: string, a: Artifact) { IsLast(cands, Named(key), a) }

  predicate IsLastDebug(cands: seq<Artifact>, id: string, a: Artifact) { IsLast(cands, Tagged(id), a) }

  /** Registered under the path itself or, when nothing is, under its bare file name. */
  predicate IsFound(cands: seq<Artifact>, path: string, a: Artifact) {
    if exists b :: b in cands && RegisteredAs(b, path) then IsLastNamed(cands, path, a)
        else IsLastNamed(cands, PathBase(path), a)
  }

  predicate IsMap(lib: Library, a: Artifact) { a.body != "" && lib.parseMap(a.body).Some? }

  lemma FoundIs(cands: seq<Artifact>, path: string, a: Artifact)
    ensures FindArtifact(cands, path) == Some(a) <==> IsFound(cands, path, a)
  {
    LastIsCandidate(cands, Named(path));
    LastIs(cands, Named(path), a);
    LastIs(cands, Named(PathBase(path)), a);
  }

  lemma DebugMapMissing(lib: Library, cands: seq<Artifact>, id: string)
    ensures Parsed(lib, LastDebug(cands, id)).None? <==>
              forall a: Artifact :: IsLastDebug(cands, id, a) ==> !IsMap(lib, a)
  {
    forall a: Artifact ensures LastDebug(cands, id) == Some(a) <==> IsLastDebug(cands, id, a) {
      LastIs(cands, Tagged(id), a);
    }
    var r := LastDebug(cands, id);
    assert r.Some? ==> IsLastDebug(cands, id, r.value);
  }

  lemma FoundMapMissing(lib: Library, cands: seq<Artifact>, path: string)
    ensures Parsed(lib, FindArtifact(cands, path)).None? <==>
              forall a: Artifact :: IsFound(cands, path, a) ==> !IsMap(lib, a)
  {
    forall a: Artifact ensures FindArtifact(cands, path) == Some(a) <==> IsFound(cands, path, a) {
      FoundIs(cands, path, a);
    }
    var r := FindArtifact(cands, path);
    assert r.Some? ==> IsFound(cands, path, r.value);
  }

  /** No image debug id leads to a map. */
  ghost predicate NoImageMap(lib: Library, cands: seq<Artifact>, ids: seq<string>) {
    forall id, a: Artifact :: id in ids && IsLastDebug(cands, ToLower(id), a) ==> !IsMap(lib, a)
  }

  /** The artifact's own debug id leads to no map. */
  ghost predicate NoOwnMap(lib: Library, cands: seq<Artifact>, art: Artifact) {
    art.debugId != "" ==> forall a: Artifact :: IsLastDebug(cands, art.debugId, a) ==> !IsMap(lib, a)
  }

  /** Its sourceMappingURL holds or names no map. */
  ghost predicate NoReferencedMap(lib: Library, cands: seq<Artifact>, p: string, art: Artifact) {
    art.sourcemapUrl != "" ==>
      if HasPrefix(ToLower(art.sourcemapUrl), "data:") then lib.parseInline(art.sourcemapUrl).None?
      else
        var base := if p == "" then NormalizePath(art.name) else p;
        forall a: Artifact :: IsFound(cands, JoinReference(lib, base, art.sourcemapUrl), a) ==> !IsMap(lib, a)
  }

  lemma ImagesMissing(lib: Library, cands: seq<Artifact>, ids: seq<string>)
    ensures ByImages(lib, cands, ids).None? <==> NoImageMap(lib, cands, ids)
  {
    ImagesFailExactlyWhen(lib, cands, ids);
    forall id | id in ids
      ensures Parsed(lib, LastDebug(cands, ToLower(id))).None? <==>
              forall a: Artifact :: IsLastDebug(cands, ToLower(id), a) ==> !IsMap(lib, a)
    {
      DebugMapMissing(lib, cands, ToLower(id));
    }
  }

  lemma OwnMissing(lib: Library, cands: seq<Artifact>, p: string)
    ensures ByOwnDebugId(lib, cands, p).None? <==>
              forall art: Artifact :: IsFound(cands, p, art) ==> NoOwnMap(lib, cands, art)
  {
    var r := FindArtifact(cands, p);
    forall art: Artifact ensures r == Some(art) <==> IsFound(cands, p, art) {
      FoundIs(cands, p, art);
    }
    if r.Some? {
      DebugMapMissing(lib, cands, r.value.debugId);
      assert IsFound(cands, p, r.value);
    }
  }

  lemma ReferencedMissing(lib: Library, cands: seq<Artifact>, p: string)
    ensures BySourcemapUrl(lib, cands, p).None? <==>
              forall art: Artifact :: IsFound(cands, p, art) ==> NoReferencedMap(lib, cands, p, art)
  {
    var r := FindArtifact(cands, p);
    forall art: Artifact ensures r == Some(art) <==> IsFound(cands, p, art) {
      FoundIs(cands, p, art);
    }
    if r.Some? {
      var base := if p == "" then NormalizePath(r.value.name) else p;
      FoundMapMissing(lib, cands, JoinReference(lib, base, r.value.sourcemapUrl));
      assert IsFound(cands, p, r.value);
    }
  }

  /**
   Nothing is found exactly when no image id leads to a candidate that is a map, the artifact found for the path leads
   to none by its debug id or its sourceMappingURL, and what is found for the path plus ".map" is none.
   */
  lemma MissingExactlyWhen(lib: Library, arts: seq<Artifact>, dist: string, absPath: string, ids: seq<string>)
    ensures var cands, p := Exact(arts, dist) + Bare(arts), NormalizePath(absPath);
            Answer(lib, arts, dist, absPath, ids).None? <==>
              && NoImageMap(lib, cands, ids)
              && (forall art: Artifact :: IsFound(cands, p, art) ==> NoOwnMap(lib, cands, art))
              && (forall art: Artifact :: IsFound(cands, p, art) ==> NoReferencedMap(lib, cands, p, art))
              && (forall a: Artifact :: IsFound(cands, p + ".map", a) ==> !IsMap(lib, a))
  {
    var cands, p := Exact(arts, dist) + Bare(arts), NormalizePath(absPath);
    ImagesMissing(lib, cands, ids);
    OwnMissing(lib, cands, p);
    ReferencedMissing(lib, cands, p);
    FoundMapMissing(lib, cands, p + ".map");
  }

  // ---- which map is found ----

  /** The artifact's own body, parsed. */
  predicate OwnMap(lib: Library, a: Artifact, hit: Hit) {
    hit.artifact == a && a.body != "" && lib.parseMap(a.body) == Some(hit.document)
  }

  /** The last candidate tagged with the first image id for which that candidate is a map. */
  ghost predicate IsImageHit(lib: Library, cands: seq<Artifact>, ids: seq<string>, hit: Hit) {
    exists i :: && 0 <= i < |ids| && NoImageMap(lib, cands, ids[..i])
                && IsLastDebug(cands, ToLower(ids[i]), hit.artifact) && OwnMap(lib, hit.artifact, hit)
  }

  /** The candidate last tagged with the debug id of the artifact found for the path. */
  ghost predicate IsOwnDebugHit(lib: Library, cands: seq<Artifact>, p: string, hit: Hit) {
    exists art: Artifact :: && IsFound(cands, p, art) && art.debugId != ""
                            && IsLastDebug(cands, art.debugId, hit.artifact) && OwnMap(lib, hit.artifact, hit)
  }

  /** The map its sourceMappingURL holds or names. */
  ghost predicate IsReferencedHit(lib: Library, cands: seq<Artifact>, p: string, hit: Hit) {
    exists art: Artifact ::
      && IsFound(cands, p, art) && art.sourcemapUrl != ""
      && if HasPrefix(ToLower(art.sourcemapUrl), "data:")
         then hit.artifact == art && lib.parseInline(art.sourcemapUrl) == Some(hit.document)
         else
           var base := if p == "" then NormalizePath(art.name) else p;
           IsFound(cands, JoinReference(lib, base, art.sourcemapUrl), hit.artifact) && OwnMap(lib, hit.artifact, hit)
  }

  ghost predicate IsSuffixHit(lib: Library, cands: seq<Artifact>, p: string, hit: Hit) {
    IsFound(cands, p + ".map", hit.artifact) && OwnMap(lib, hit.artifact, hit)
  }

  lemma DebugMapIs(lib: Library, cands: seq<Artifact>, id: string, hit: Hit)
    ensures Parsed(lib, LastDebug(cands, id)) == Some(hit) <==>
            IsLastDebug(cands, id, hit.artifact) && OwnMap(lib, hit.artifact, hit)
  {
    LastIs(cands, Tagged(id), hit.artifact);
  }

  lemma FoundMapIs(lib: Library, cands: seq<Artifact>, path: string, hit: Hit)
    ensures Parsed(lib, FindArtifact(cands, path)) == Some(hit) <==>
            IsFound(cands, path, hit.artifact) && OwnMap(lib, hit.artifact, hit)
  {
    FoundIs(cands, path, hit.artifact);
  }

  lemma {:induction false} ImageHitIs(lib: Library, cands: seq<Artifact>, ids: seq<string>, hit: Hit)
    ensures ByImages(lib, cands, ids) == Some(hit) <==> IsImageHit(lib, cands, ids, hit)
    decreases |ids|
  {
    if ids == [] {
    } else {
      DebugMapIs(lib, cands, ToLower(ids[0]), hit);
      DebugMapMissing(lib, cands, ToLower(ids[0]));
      ImageHitIs(lib, cands, ids[1..], hit);
      FirstOrLater(lib, cands, ids, hit);
    }
  }

  /** The first id's candidate is the hit, or is no map and the hit is one of the later ids. */
  lemma FirstOrLater(lib: Library, cands: seq<Artifact>, ids: seq<string>, hit: Hit)
    requires ids != []
    ensures IsImageHit(lib, cands, ids, hit) <==>
              || (IsLastDebug(cands, ToLower(ids[0]), hit.artifact) && OwnMap(lib, hit.artifact, hit))
              || ((forall a: Artifact :: IsLastDebug(cands, ToLower(ids[0]), a) ==> !IsMap(lib, a))
                  && IsImageHit(lib, cands, ids[1..], hit))
  {
    assert NoImageMap(lib, cands, ids[..0]);
    if i :| && 0 < i < |ids| && NoImageMap(lib, cands, ids[..i])
            && IsLastDebug(cands, ToLower(ids[i]), hit.artifact) && OwnMap(lib, hit.artifact, hit) {
      assert ids[0] in ids[..i];
      NoneBefore(lib, cands, ids, i);
      assert ids[1..][i - 1] == ids[i];
    }
    if (forall a: Artifact :: IsLastDebug(cands, ToLower(ids[0]), a) ==> !IsMap(lib, a))
        && IsImageHit(lib, cands, ids[1..], hit) {
      var i :| && 0 <= i < |ids[1..]| && NoImageMap(lib, cands, ids[1..][..i])
               && IsLastDebug(cands, ToLower(ids[1..][i]), hit.artifact) && OwnMap(lib, hit.artifact, hit);
      NoneBefore(lib, cands, ids, i + 1);
      assert ids[i + 1] == ids[1..][i];
    }
  }

  lemma NoneBefore(lib: Library, cands: seq<Artifact>, ids: seq<string>, i: nat)
    requires 0 < i <= |ids|
    ensures NoImageMap(lib, cands, ids[..i]) <==>
              && (forall a: Artifact :: IsLastDebug(cands, ToLower(ids[0]), a) ==> !IsMap(lib, a))
              && NoImageMap(lib, cands, ids[1..][..i - 1])
  {
    assert ids[..i] == [ids[0]] + ids[1..][..i - 1];
    assert forall id :: id in ids[..i] <==> id == ids[0] || id in ids[1..][..i - 1];
  }

  lemma OwnDebugHitIs(lib: Library, cands: seq<Artifact>, p: string, hit: Hit)
    ensures ByOwnDebugId(lib, cands, p) == Some(hit) <==> IsOwnDebugHit(lib, cands, p, hit)
  {
    var r := FindArtifact(cands, p);
    forall art: Artifact ensures r == Some(art) <==> IsFound(cands, p, art) {
      FoundIs(cands, p, art);
    }
    if r.Some? {
      assert IsFound(cands, p, r.value);
      DebugMapIs(lib, cands, r.value.debugId, hit);
    }
  }

  lemma ReferencedHitIs(lib: Library, cands: seq<Artifact>, p: string, hit: Hit)
    ensures BySourcemapUrl(lib, cands, p) == Some(hit) <==> IsReferencedHit(lib, cands, p, hit)
  {
    var r := FindArtifact(cands, p);
    forall art: Artifact ensures r == Some(art) <==> IsFound(cands, p, art) {
      FoundIs(cands, p, art);
    }
    if r.Some? {
      assert IsFound(cands, p, r.value);
      var base := if p == "" then NormalizePath(r.value.name) else p;
      FoundMapIs(lib, cands, JoinReference(lib, base, r.value.sourcemapUrl), hit);
    }
  }

  /**
   Which map an event's frame gets: the last candidate tagged with the first image id that leads to a map; failing that,
   the one its own artifact's debug id leads to; failing that, its sourceMappingURL's; failing that, what is found for
   the path plus ".map".
   */
  lemma FoundExactlyWhen(lib: Library, arts: seq<Artifact>, dist: string, absPath: string, ids: seq<string>, hit: Hit)
    ensures var cands, p := Exact(arts, dist) + Bare(arts), NormalizePath(absPath);
            var noImage := NoImageMap(lib, cands, ids);
            var noOwn := forall art: Artifact :: IsFound(cands, p, art) ==> NoOwnMap(lib, cands, art);
            var noReferenced := forall art: Artifact :: IsFound(cands, p, art) ==> NoReferencedMap(lib, cands, p, art);
            Answer(lib, arts, dist, absPath, ids) == Some(hit) <==>
              || IsImageHit(lib, cands, ids, hit)
              || (noImage && IsOwnDebugHit(lib, cands, p, hit))
              || (noImage && noOwn && IsReferencedHit(lib, cands, p, hit))
              || (noImage && noOwn && noReferenced && IsSuffixHit(lib, cands, p, hit))
  {
    var cands, p := Exact(arts, dist) + Bare(arts), NormalizePath(absPath);
    ImagesMissing(lib, cands, ids);
    OwnMissing(lib, cands, p);
    ReferencedMissing(lib, cands, p);
    ImageHitIs(lib, cands, ids, hit);
    OwnDebugHitIs(lib, cands, p, hit);
    ReferencedHitIs(lib, cands, p, hit);
    FoundMapIs(lib, cands, p + ".map", hit);
  }

  lemma {:induction false} LastOfConcat<T>(a: seq<T>, b: seq<T>, p: T -> bool)
    ensures Last(a + b, p) == if Last(b, p).Some? then Last(b, p) else Last(a, p)
  {
    if b == [] {
      assert a + b == a;
    } else {
      assert (a + b)[..|a + b| - 1] == a + b[..|b| - 1];
      LastOfConcat(a, b[..|b| - 1], p);
    }
  }

  /**
   A key resolves to a bare upload exactly when one is registered under it, whatever exact-dist uploads share the key.
   */
  lemma BareOverridesExact(arts: seq<Artifact>, dist: string, key: string)
    ensures (exists a :: a in arts && a.dist == "" && RegisteredAs(a, key)) <==>
              var r := LastNamed(Exact(arts, dist) + Bare(arts), key); r.Some? && r.value.dist == ""
  {
    CandidatesAreVisible(arts, dist);
    LastIsCandidate(Bare(arts), Named(key));
    LastIsCandidate(Exact(arts, dist), Named(key));
    LastOfConcat(Exact(arts, dist), Bare(arts), Named(key));
  }
}
