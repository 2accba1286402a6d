/** The symbolicated view of one error event, computed afresh from an artifact list. */
module EventView {
  import opened Wrappers
  import opened Symbolicate
  import opened Resolve

  datatype Image = Image(debugId: string, codeFile: string)

  datatype RawFrame = RawFrame(lineno: int, colno: int, absPath: string, filename: string, function_: string,
      inApp: bool)

  datatype Exception = Exception(kind: string, value: string, frames: seq<RawFrame>)

  datatype Event = Event(release: string, dist: string, images: seq<Image>, exceptions: seq<Exception>)

  /** The frame as received, the name to show and the symbolicated overlay. */
  datatype FrameView = FrameView(raw: RawFrame, name: string, overlay: FrameResult)

  datatype ExceptionView = ExceptionView(kind: string, value: string, frames: seq<FrameView>)

  datatype MissingMap = MissingMap(absPath: string, release: string, dist: string)

  datatype EventResult = EventResult(cacheKey: string, symbolicated: bool, noRelease: bool,
                                     exceptions: seq<ExceptionView>, missing: seq<MissingMap>)

  const MISSING_MAP_CAP := 20

  function FirstNonEmpty(a: string, b: string): string { if a != "" then a else b }

  /** The image's code file is the frame's, or has its base name. */
  predicate NamesFrame(img: Image, want: string) {
    var cf := NormalizePath(img.codeFile);
    cf != "" && (cf == want || PathBase(cf) == PathBase(want))
  }

  function ImageIds(images: seq<Image>, want: string): seq<string> {
    if images == [] || want == "" then [] else
    var img := images[|images| - 1];
    ImageIds(images[..|images| - 1], want) + (if NamesFrame(img, want) then [img.debugId] else [])
  }

  method ImageDebugIds(images: seq<Image>, absPath: string, filename: string) returns (ids: seq<string>)
    ensures ids == ImageIds(images, NormalizePath(FirstNonEmpty(absPath, filename)))
  {
    ids := [];
    if |images| == 0 {
      return;
    }
    var want := NormalizePath(FirstNonEmpty(absPath, filename));
    if want == "" {
      return;
    }
    for i := 0 to |images|
      invariant ids == ImageIds(images[..i], want)
    {
      assert images[..i + 1][..i] == images[..i];
      if NamesFrame(images[i], want) {
        ids := ids + [images[i].debugId];
      }
    }
    assert images[..|images|] == images;
  }

  // ---- what each part of the result is ----

  function MapFor(lib: Library, arts: seq<Artifact>, e: Event, f: RawFrame): Option<Document> {
    var path := FirstNonEmpty(f.absPath, f.filename);
    var hit := Answer(lib, arts, e.dist, path, ImageIds(e.images, NormalizePath(path)));
    if hit.Some? then Some(hit.value.document) else None
  }

  function Overlaid(f: RawFrame, m: Option<Document>): FrameView {
    if m.None? then FrameView(f, f.function_, Unresolved) else
    var r := SymbolicateFrame(m.value, Frame(f.lineno, f.colno));
    FrameView(f, if r.Resolved? && r.function_ != "" then r.function_ else f.function_, r)
  }

  function ViewOf(lib: Library, arts: seq<Artifact>, e: Event, f: RawFrame): FrameView {
    Overlaid(f, MapFor(lib, arts, e, f))
  }

  function ViewsOf(lib: Library, arts: seq<Artifact>, e: Event, frames: seq<RawFrame>): (r: seq<FrameView>)
    ensures |r| == |frames|
  {
    seq(|frames|, i requires 0 <= i < |frames| => ViewOf(lib, arts, e, frames[i]))
  }

  function ExceptionViewOf(lib: Library, arts: seq<Artifact>, e: Event, x: Exception): ExceptionView {
    ExceptionView(x.kind, x.value, ViewsOf(lib, arts, e, x.frames))
  }

  function ExceptionViewsOf(lib: Library, arts: seq<Artifact>, e: Event, xs: seq<Exception>): (r: seq<ExceptionView>)
    ensures |r| == |xs|
  {
    seq(|xs|, i requires 0 <= i < |xs| => ExceptionViewOf(lib, arts, e, xs[i]))
  }

  function AllFrames(xs: seq<Exception>): seq<RawFrame> {
    if xs == [] then [] else AllFrames(xs[..|xs| - 1]) + xs[|xs| - 1].frames
  }

  predicate AnyResolved(lib: Library, arts: seq<Artifact>, e: Event, frames: seq<RawFrame>) {
    exists f :: f in frames && ViewOf(lib, arts, e, f).overlay.Resolved?
  }

  predicate Unmapped(lib: Library, arts: seq<Artifact>, e: Event, f: RawFrame) {
    f.absPath != "" && MapFor(lib, arts, e, f).None?
  }

  /** The distinct paths of the frames no map was found for, in order of first appearance. */
  function MissingPaths(lib: Library, arts: seq<Artifact>, e: Event, frames: seq<RawFrame>): seq<string> {
    if frames == [] then [] else
    var before, f := MissingPaths(lib, arts, e, frames[..|frames| - 1]), frames[|frames| - 1];
    if Unmapped(lib, arts, e, f) && f.absPath !in before then before + [f.absPath] else before
  }

  function Capped<T>(s: seq<T>): seq<T> { if |s| <= MISSING_MAP_CAP then s else s[..MISSING_MAP_CAP] }

  function Hints(e: Event, paths: seq<string>): (r: seq<MissingMap>)
    ensures |r| == |paths|
  {
    seq(|paths|, i requires 0 <= i < |paths| => MissingMap(paths[i], e.release, e.dist))
  }

  function Uncached(lib: Library, key: string, arts: seq<Artifact>, e: Event): EventResult {
    if e.release == "" then EventResult(key, false, true, [], []) else
    EventResult(key, AnyResolved(lib, arts, e, AllFrames(e.exceptions)), false,
                ExceptionViewsOf(lib, arts, e, e.exceptions),
                Hints(e, Capped(MissingPaths(lib, arts, e, AllFrames(e.exceptions)))))
  }

  /** The paths no map was found for. */
  function UnmappedPaths(lib: Library, arts: seq<Artifact>, e: Event, frames: seq<RawFrame>): set<string> {
    set f | f in frames && Unmapped(lib, arts, e, f) :: f.absPath
  }

  lemma UnmappedPathsAdd(lib: Library, arts: seq<Artifact>, e: Event, before: seq<RawFrame>, f: RawFrame)
    ensures UnmappedPaths(lib, arts, e, before + [f])
            == UnmappedPaths(lib, arts, e, before) + (if Unmapped(lib, arts, e, f) then {f.absPath} else {})
  {
    forall p | p in UnmappedPaths(lib, arts, e, before) ensures p in UnmappedPaths(lib, arts, e, before + [f]) {
      var g :| g in before && Unmapped(lib, arts, e, g) && g.absPath == p;
      assert g in before + [f];
    }
    assert f in before + [f];
  }

  lemma {:induction false} MissingPathsAdd(lib: Library, arts: seq<Artifact>, e: Event, before: seq<RawFrame>,
      f: RawFrame)
    ensures var ps := MissingPaths(lib, arts, e, before);
            MissingPaths(lib, arts, e, before + [f]) == if Unmapped(lib, arts, e, f) && f.absPath !in ps
                then ps + [f.absPath] else ps
  {
    assert (before + [f])[..|before|] == before;
  }

  lemma {:induction false} MissingPathsExactly(lib: Library, arts: seq<Artifact>, e: Event, frames: seq<RawFrame>)
    ensures Elements(MissingPaths(lib, arts, e, frames)) == UnmappedPaths(lib, arts, e, frames)
    ensures Distinct(MissingPaths(lib, arts, e, frames))
  {
    if frames == [] {
    } else {
      var init, f := frames[..|frames| - 1], frames[|frames| - 1];
      assert frames == init + [f];
      MissingPathsExactly(lib, arts, e, init);
      UnmappedPathsAdd(lib, arts, e, init, f);
      MissingPathsAdd(lib, arts, e, init, f);
      ElementsAdd(MissingPaths(lib, arts, e, init), f.absPath);
    }
  }

  lemma {:induction false} ElementsAdd(ps: seq<string>, p: string)
    requires Distinct(ps)
    ensures Elements(ps + [p]) == Elements(ps) + {p} && (p !in ps ==> Distinct(ps + [p]))
            && (p in ps ==> Elements(ps) + {p} == Elements(ps))
  {
  }

  predicate Distinct<T(==)>(s: seq<T>) { forall i, j :: 0 <= i < j < |s| ==> s[i] != s[j] }

  /** What the first twenty of some distinct paths tell of them all. */
  lemma HintsOfPaths(e: Event, ps: seq<string>)
    requires Distinct(ps)
    ensures var ms := Hints(e, Capped(ps));
            && |ms| <= 20
            && (forall i :: 0 <= i < |ms| ==> ms[i] == MissingMap(ps[i], e.release, e.dist) && ps[i] in Elements(ps))
            && (forall i, j :: 0 <= i < j < |ms| ==> ms[i] != ms[j])
            && (|ms| < 20 ==> forall p :: p in Elements(ps) ==> MissingMap(p, e.release, e.dist) in ms)
  {
    var ms := Hints(e, Capped(ps));
    forall p | |ms| < 20 && p in Elements(ps) ensures MissingMap(p, e.release, e.dist) in ms {
      var i :| 0 <= i < |ps| && ps[i] == p;
      assert ms[i] == MissingMap(p, e.release, e.dist);
    }
  }

  /** At most twenty hints, no path twice, each a path without a map; below twenty no such path is left out. */
  lemma HintsAreExact(lib: Library, key: string, arts: seq<Artifact>, e: Event)
    requires e.release != ""
    ensures var ms, unmapped := Uncached(lib, key, arts, e).missing,
            UnmappedPaths(lib, arts, e, AllFrames(e.exceptions));
            && |ms| <= 20
            && (forall i :: 0 <= i < |ms| ==>
                ms[i] == MissingMap(ms[i].absPath, e.release, e.dist) && ms[i].absPath in unmapped)
            && (forall i, j :: 0 <= i < j < |ms| ==> ms[i] != ms[j])
            && (|ms| < 20 ==> forall p :: p in unmapped ==> MissingMap(p, e.release, e.dist) in ms)
  {
    MissingPathsExactly(lib, arts, e, AllFrames(e.exceptions));
    HintsOfPaths(e, MissingPaths(lib, arts, e, AllFrames(e.exceptions)));
  }

  /** No map was found for some frame of the event with this path. */
  ghost predicate LacksMap(lib: Library, arts: seq<Artifact>, e: Event, path: string) {
    exists x, f :: x in e.exceptions && f in x.frames && f.absPath == path
        && Answer(lib, arts, e.dist, path, ImageIds(e.images, NormalizePath(path))).None?
  }

  /** The paths to hint at are the non-empty absolute ones of frames without a map. */
  lemma HintedPathsExactly(lib: Library, arts: seq<Artifact>, e: Event, path: string)
    ensures path in UnmappedPaths(lib, arts, e, AllFrames(e.exceptions)) <==>
              path != "" && LacksMap(lib, arts, e, path)
  {
    if path in UnmappedPaths(lib, arts, e, AllFrames(e.exceptions)) {
      var f :| f in AllFrames(e.exceptions) && Unmapped(lib, arts, e, f) && f.absPath == path;
      AllFramesAre(e.exceptions, f);
    }
    if path != "" && LacksMap(lib, arts, e, path) {
      var x, f :| x in e.exceptions && f in x.frames && f.absPath == path
          && Answer(lib, arts, e.dist, path, ImageIds(e.images, NormalizePath(path))).None?;
      AllFramesAre(e.exceptions, f);
      assert Unmapped(lib, arts, e, f);
    }
  }

  // ---- what a view shows ----

  /** An image's debug id is tried exactly when its code file is the frame's path or has its base name. */
  lemma {:induction false} ImageIdsExactly(images: seq<Image>, want: string, id: string)
    ensures id in ImageIds(images, want) <==>
              want != "" && exists img :: && img in images && img.debugId == id && NormalizePath(img.codeFile) != ""
                                          && (NormalizePath(img.codeFile) == want
                                              || PathBase(NormalizePath(img.codeFile)) == PathBase(want))
  {
    if images == [] || want == "" {
    } else {
      var init, last := images[..|images| - 1], images[|images| - 1];
      ImageIdsExactly(init, want, id);
      assert forall img :: img in images <==> img in init || img == last;
      if NamesFrame(last, want) && last.debugId == id {
        assert last in images;
      }
    }
  }

  /** Images are tried in their order. */
  lemma {:induction false} ImageIdsKeepOrder(a: seq<Image>, b: seq<Image>, want: string)
    ensures ImageIds(a + b, want) == ImageIds(a, want) + ImageIds(b, want)
  {
    if b == [] {
      assert a + b == a && ImageIds(a, want) + [] == ImageIds(a, want);
    } else if want != "" {
      assert (a + b)[..|a + b| - 1] == a + b[..|b| - 1];
      ImageIdsKeepOrder(a, b[..|b| - 1], want);
    }
  }

  /** A frame as it is shown: itself, and on top of it what its own map makes of its position. */
  ghost predicate ShowsFrame(lib: Library, arts: seq<Artifact>, e: Event, f: RawFrame, v: FrameView) {
    var path := if f.absPath != "" then f.absPath else f.filename;
    var found := Answer(lib, arts, e.dist, path, ImageIds(e.images, NormalizePath(path)));
    && v.raw == f
    && v.overlay == (if found.None? then Unresolved
        else SymbolicateFrame(found.value.document, Frame(f.lineno, f.colno)))
    && v.name == (if v.overlay.Resolved? && v.overlay.function_ != "" then v.overlay.function_ else f.function_)
  }

  lemma ShownExactlyWhen(lib: Library, arts: seq<Artifact>, e: Event, f: RawFrame, v: FrameView)
    ensures ShowsFrame(lib, arts, e, f, v) <==> v == ViewOf(lib, arts, e, f)
  {
  }

  /** Every exception and every frame of the event is shown in place. */
  lemma EveryFrameIsShown(lib: Library, key: string, arts: seq<Artifact>, e: Event)
    requires e.release != ""
    ensures var res := Uncached(lib, key, arts, e);
            && res.cacheKey == key && !res.noRelease && |res.exceptions| == |e.exceptions|
            && (forall i :: 0 <= i < |e.exceptions| ==>
                  && res.exceptions[i].kind == e.exceptions[i].kind && res.exceptions[i].value == e.exceptions[i].value
                  && |res.exceptions[i].frames| == |e.exceptions[i].frames|)
            && (forall i, j :: 0 <= i < |e.exceptions| && 0 <= j < |e.exceptions[i].frames| ==>
                  ShowsFrame(lib, arts, e, e.exceptions[i].frames[j], res.exceptions[i].frames[j]))
  {
    var res := Uncached(lib, key, arts, e);
    forall i, j | 0 <= i < |e.exceptions| && 0 <= j < |e.exceptions[i].frames|
      ensures ShowsFrame(lib, arts, e, e.exceptions[i].frames[j], res.exceptions[i].frames[j])
    {
      ShownExactlyWhen(lib, arts, e, e.exceptions[i].frames[j], res.exceptions[i].frames[j]);
    }
  }

  lemma {:induction false} AllFramesAre(xs: seq<Exception>, f: RawFrame)
    ensures f in AllFrames(xs) <==> exists x :: x in xs && f in x.frames
  {
    if xs == [] {
    } else {
      var init, last := xs[..|xs| - 1], xs[|xs| - 1];
      AllFramesAre(init, f);
      assert forall x :: x in xs <==> x in init || x == last;
      assert last in xs;
    }
  }

  /** Some frame of the event is shown resolved. */
  ghost predicate SomeFrameResolved(lib: Library, arts: seq<Artifact>, e: Event) {
    exists x, f, v :: x in e.exceptions && f in x.frames && ShowsFrame(lib, arts, e, f, v) && v.overlay.Resolved?
  }

  lemma ResolvedIsShown(lib: Library, arts: seq<Artifact>, e: Event)
    requires AnyResolved(lib, arts, e, AllFrames(e.exceptions))
    ensures SomeFrameResolved(lib, arts, e)
  {
    var f :| f in AllFrames(e.exceptions) && ViewOf(lib, arts, e, f).overlay.Resolved?;
    AllFramesAre(e.exceptions, f);
    var x :| x in e.exceptions && f in x.frames;
    ShownExactlyWhen(lib, arts, e, f, ViewOf(lib, arts, e, f));
  }

  lemma ShownIsResolved(lib: Library, arts: seq<Artifact>, e: Event)
    requires SomeFrameResolved(lib, arts, e)
    ensures AnyResolved(lib, arts, e, AllFrames(e.exceptions))
  {
    var x, f, v :| x in e.exceptions && f in x.frames && ShowsFrame(lib, arts, e, f, v) && v.overlay.Resolved?;
    AllFramesAre(e.exceptions, f);
    ShownExactlyWhen(lib, arts, e, f, v);
  }

  /** An event counts as symbolicated exactly when one of its frames is shown resolved. */
  lemma FlagTellsResolved(lib: Library, key: string, arts: seq<Artifact>, e: Event)
    requires e.release != ""
    ensures Uncached(lib, key, arts, e).symbolicated <==> SomeFrameResolved(lib, arts, e)
  {
    if AnyResolved(lib, arts, e, AllFrames(e.exceptions)) {
      ResolvedIsShown(lib, arts, e);
    } else if SomeFrameResolved(lib, arts, e) {
      ShownIsResolved(lib, arts, e);
    }
  }

  // ---- the nested loops ----

  /** What the loops have accumulated once `frames` are done. */
  class Accumulator {
    var symbolicated: bool
    var seenMissing: set<string>
    var missing: seq<MissingMap>

    ghost predicate Covers(lib: Library, arts: seq<Artifact>, e: Event, frames: seq<RawFrame>)
      reads this
    {
      && symbolicated == AnyResolved(lib, arts, e, frames)
      && missing == Hints(e, Capped(MissingPaths(lib, arts, e, frames)))
      && seenMissing == Elements(Capped(MissingPaths(lib, arts, e, frames)))
    }

    constructor (lib: Library, arts: seq<Artifact>, e: Event)
      ensures Covers(lib, arts, e, [])
    {
      symbolicated, seenMissing, missing := false, {}, [];
    }

    /** A frame without a map is hinted at, once per path and up to the cap. */
    method AddHint(lib: Library, arts: seq<Artifact>, e: Event, f: RawFrame, ghost before: seq<RawFrame>)
      requires Covers(lib, arts, e, before) && MapFor(lib, arts, e, f).None?
      modifies `seenMissing, `missing
      ensures missing == Hints(e, Capped(MissingPaths(lib, arts, e, before + [f])))
      ensures seenMissing == Elements(Capped(MissingPaths(lib, arts, e, before + [f])))
    {
      MissingPathsAdd(lib, arts, e, before, f);
      HintAdds(e, MissingPaths(lib, arts, e, before), f.absPath);
      if f.absPath != "" && f.absPath !in seenMissing && |missing| < MISSING_MAP_CAP {
        seenMissing := seenMissing + {f.absPath};
        missing := missing + [MissingMap(f.absPath, e.release, e.dist)];
      }
    }

    method AddFrame(lib: Library, arts: seq<Artifact>, e: Event, f: RawFrame, ghost before: seq<RawFrame>)
        returns (fv: FrameView)
      requires Covers(lib, arts, e, before)
      modifies this
      ensures Covers(lib, arts, e, before + [f]) && fv == ViewOf(lib, arts, e, f)
    {
      var ids := ImageDebugIds(e.images, f.absPath, f.filename);
      var hit := ResolveMap(lib, arts, e.dist, FirstNonEmpty(f.absPath, f.filename), ids);
      MissingPathsAdd(lib, arts, e, before, f);
      AnyResolvedAdds(lib, arts, e, before, f);
      if hit.None? {
        AddHint(lib, arts, e, f, before);
        return FrameView(f, f.function_, Unresolved);
      }
      var r := SymbolicateFrame(hit.value.document, Frame(f.lineno, f.colno));
      fv := FrameView(f, f.function_, r);
      if r.Resolved? {
        if r.function_ != "" {
          fv := fv.(name := r.function_);
        }
        symbolicated := true;
      }
    }

    method AddFrames(lib: Library, arts: seq<Artifact>, e: Event, frames: seq<RawFrame>, ghost before: seq<RawFrame>)
      returns (views: seq<FrameView>)
      requires Covers(lib, arts, e, before)
      modifies this
      ensures Covers(lib, arts, e, before + frames) && views == ViewsOf(lib, arts, e, frames)
    {
      views := [];
      assert before + frames[..0] == before;
      for j := 0 to |frames|
        invariant Covers(lib, arts, e, before + frames[..j])
        invariant views == ViewsOf(lib, arts, e, frames[..j])
      {
        var fv := AddFrame(lib, arts, e, frames[j], before + frames[..j]);
        Extend(lib, arts, e, before, frames, j);
        views := views + [fv];
      }
      assert frames[..|frames|] == frames;
    }

    method AddExceptions(lib: Library, arts: seq<Artifact>, e: Event) returns (views: seq<ExceptionView>)
      requires Covers(lib, arts, e, [])
      modifies this
      ensures Covers(lib, arts, e, AllFrames(e.exceptions)) && views == ExceptionViewsOf(lib, arts, e, e.exceptions)
    {
      views := [];
      var xs := e.exceptions;
      for i := 0 to |xs|
        invariant Covers(lib, arts, e, AllFrames(xs[..i]))
        invariant views == ExceptionViewsOf(lib, arts, e, xs[..i])
      {
        var frames := AddFrames(lib, arts, e, xs[i].frames, AllFrames(xs[..i]));
        ExtendExceptions(lib, arts, e, xs, i);
        views := views + [ExceptionView(xs[i].kind, xs[i].value, frames)];
      }
      assert xs[..|xs|] == xs;
    }
  }

  lemma AnyResolvedAdds(lib: Library, arts: seq<Artifact>, e: Event, before: seq<RawFrame>, f: RawFrame)
    ensures AnyResolved(lib, arts, e, before + [f]) ==
            (AnyResolved(lib, arts, e, before) || ViewOf(lib, arts, e, f).overlay.Resolved?)
  {
    if AnyResolved(lib, arts, e, before) {
      var g :| g in before && ViewOf(lib, arts, e, g).overlay.Resolved?;
      assert g in before + [f];
    }
    assert f in before + [f];
  }

  lemma CappedAdds(ps: seq<string>, p: string)
    ensures p in Capped(ps) ==> p in ps
    ensures |ps| < MISSING_MAP_CAP ==> Capped(ps + [p]) == Capped(ps) + [p] && (p in ps ==> p in Capped(ps))
    ensures |ps| >= MISSING_MAP_CAP ==> Capped(ps + [p]) == Capped(ps) && |Capped(ps)| == MISSING_MAP_CAP
  {
  }

  /** What one more path does to the hints and the set of hinted paths. */
  lemma HintAdds(e: Event, ps: seq<string>, p: string)
    ensures var hints, seen := Hints(e, Capped(ps)), Elements(Capped(ps));
            var more := if p in ps then ps else ps + [p];
            if p in seen || |hints| >= MISSING_MAP_CAP
                then Hints(e, Capped(more)) == hints && Elements(Capped(more)) == seen
            else Hints(e, Capped(more)) == hints + [MissingMap(p, e.release, e.dist)]
                 && Elements(Capped(more)) == seen + {p}
  {
    CappedAdds(ps, p);
    if |ps| < MISSING_MAP_CAP {
      ElementsOfOneMore(Capped(ps), p);
    }
  }

  lemma ElementsOfOneMore(ps: seq<string>, p: string)
    ensures Elements(ps + [p]) == Elements(ps) + {p}
  {
  }

  lemma Extend(lib: Library, arts: seq<Artifact>, e: Event, before: seq<RawFrame>, frames: seq<RawFrame>, j: nat)
    requires j < |frames|
    ensures before + frames[..j] + [frames[j]] == before + frames[..j + 1]
    ensures ViewsOf(lib, arts, e, frames[..j]) + [ViewOf(lib, arts, e, frames[j])] ==
            ViewsOf(lib, arts, e, frames[..j + 1])
  {
    assert frames[..j] + [frames[j]] == frames[..j + 1];
  }

  lemma ExtendExceptions(lib: Library, arts: seq<Artifact>, e: Event, xs: seq<Exception>, i: nat)
    requires i < |xs|
    ensures AllFrames(xs[..i + 1]) == AllFrames(xs[..i]) + xs[i].frames
    ensures ExceptionViewsOf(lib, arts, e, xs[..i + 1]) ==
            ExceptionViewsOf(lib, arts, e, xs[..i]) + [ExceptionViewOf(lib, arts, e, xs[i])]
  {
    assert xs[..i + 1][..i] == xs[..i];
  }

  method SymbolicateUncached(lib: Library, key: string, arts: seq<Artifact>, e: Event) returns (res: EventResult)
    ensures res == Uncached(lib, key, arts, e)
  {
    if e.release == "" {
      return EventResult(key, false, true, [], []);
    }
    var acc := new Accumulator(lib, arts, e);
    var exceptions := acc.AddExceptions(lib, arts, e);
    res := EventResult(key, acc.symbolicated, false, exceptions, acc.missing);
  }
}
