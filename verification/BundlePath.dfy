/** Frame paths with the bundler's content hashes replaced, segment by segment. */
module BundlePath {
  import opened Wrappers
  import opened Text
  import opened Grouping

  function LastIndexOf(s: string, c: char): (i: int)
    ensures -1 <= i < |s|
    ensures i >= 0 ==> s[i] == c
    ensures forall j :: i < j < |s| ==> s[j] != c
  {
    if s == "" then -1 else if s[|s| - 1] == c then |s| - 1 else LastIndexOf(s[..|s| - 1], c)
  }

  /** Non-empty, and without the newline that '.' does not match. */
  predicate Plain(s: string) { s != "" && '\n' !in s }

  /** The name and extension around a dotted hash: main.9ab34f.js. */
  function Dotted(seg: string): Option<(string, string)> {
    var q := LastIndexOf(seg, '.');
    if q < 0 then None else
    var p := LastIndexOf(seg[..q], '.');
    if p >= 0 && Plain(seg[..p]) && q - p - 1 >= 6 && AllHex(seg[p + 1..q]) && q + 1 < |seg| && AllAlnum(seg[q + 1..])
    then Some((seg[..p], seg[q + 1..])) else None
  }

  /** The name and the optional extension, with its dot, around a dashed hash: index-9ab34f12.js. */
  function Dashed(seg: string): Option<(string, string)> {
    var p := LastIndexOf(seg, '-');
    if p < 0 || !Plain(seg[..p]) then None else
    var rest := seg[p + 1..];
    var d := IndexByte(rest, '.');
    if d < 0 then (if |rest| >= 8 && AllHex(rest) then Some((seg[..p], "")) else None)
    else if d >= 8 && AllHex(rest[..d]) && d + 1 < |rest| && AllAlnum(rest[d + 1..]) then Some((seg[..p], rest[d..]))
    else None
  }

  const MARK := "{hash}"

  function NormalizeSegment(seg: string): string {
    match Dotted(seg)
    case Some((name, ext)) => name + "." + MARK + "." + ext
    case None =>
      match Dashed(seg)
      case Some((name, ext)) => name + "-" + MARK + ext
      case None => if |seg| >= 8 && AllHex(seg) then MARK else seg
  }

  function NormalizeSegments(segs: seq<string>): (r: seq<string>)
    ensures |r| == |segs|
  {
    seq(|segs|, i requires 0 <= i < |segs| => NormalizeSegment(segs[i]))
  }

  function NormalizeBundlePath(path: string): string { Join(NormalizeSegments(Split(path, '/')), '/') }

  method RewriteSegment(segs: array<string>, i: nat, ghost parts: seq<string>)
    requires i < segs.Length == |parts| && segs[i] == parts[i]
    modifies segs
    ensures segs[..] == old(segs[..])[i := NormalizeSegments(parts)[i]]
  {
    var seg := segs[i];
    var dotted := Dotted(seg);
    if dotted.Some? {
      segs[i] := dotted.value.0 + "." + MARK + "." + dotted.value.1;
      return;
    }
    var dashed := Dashed(seg);
    if dashed.Some? {
      segs[i] := dashed.value.0 + "-" + MARK + dashed.value.1;
      return;
    }
    if |seg| >= 8 && AllHex(seg) {
      segs[i] := MARK;
    }
  }

  /** The loop over the segments. */
  method RewriteSegments(segs: array<string>)
    modifies segs
    ensures segs[..] == NormalizeSegments(old(segs[..]))
  {
    ghost var parts := segs[..];
    ghost var done := NormalizeSegments(parts);
    var i := 0;
    while i < segs.Length
      invariant i <= segs.Length == |parts| == |done|
      invariant segs[..i] == done[..i] && segs[i..] == parts[i..]
    {
      assert segs[i] == segs[i..][0] == parts[i..][0];
      ghost var before := segs[..];
      RewriteSegment(segs, i, parts);
      assert segs[..] == before[i := done[i]];
      assert segs[..i] == before[..i] && segs[i + 1..] == before[i + 1..] && before[i + 1..] == before[i..][1..];
      i := i + 1;
    }
  }

  method NormalizeInPlace(path: string) returns (r: string)
    ensures r == NormalizeBundlePath(path)
  {
    var parts := Split(path, '/');
    var segs := new string[|parts|](i requires 0 <= i < |parts| => parts[i]);
    assert segs[..] == parts;
    RewriteSegments(segs);
    r := Join(segs[..], '/');
  }

  // ---- the two patterns ----

  /** ^(.+)\.([0-9a-fA-F]{6,})\.([a-zA-Z0-9]+)$ with its three groups. */
  predicate DottedMatch(seg: string, name: string, hash: string, ext: string) {
    seg == name + "." + hash + "." + ext && Plain(name) && |hash| >= 6 && AllHex(hash) && ext != "" && AllAlnum(ext)
  }

  /** ^(.+)-([0-9a-fA-F]{8,})(\.[a-zA-Z0-9]+)?$ with its three groups. */
  predicate DashedMatch(seg: string, name: string, hash: string, ext: string) {
    && seg == name + "-" + hash + ext && Plain(name) && |hash| >= 8 && AllHex(hash)
    && (ext == "" || (|ext| > 1 && ext[0] == '.' && AllAlnum(ext[1..])))
  }

  lemma {:induction false} LastIndexIs(s: string, c: char, i: nat)
    requires i < |s| && s[i] == c && forall j :: i < j < |s| ==> s[j] != c
    ensures LastIndexOf(s, c) == i
  {
  }

  lemma {:induction false} IndexIs(s: string, c: char, i: nat)
    requires i < |s| && s[i] == c && forall j :: 0 <= j < i ==> s[j] != c
    ensures IndexByte(s, c) == i
  {
  }

  lemma {:induction false} NoIndex(s: string, c: char)
    requires forall j :: 0 <= j < |s| ==> s[j] != c
    ensures IndexByte(s, c) == -1
  {
  }

  /** A segment matches the dotted pattern in at most one way, and then that is what is found. */
  lemma {:induction false} DottedMatches(seg: string, name: string, hash: string, ext: string)
    requires DottedMatch(seg, name, hash, ext)
    ensures Dotted(seg) == Some((name, ext))
  {
    var p, q := |name|, |name| + 1 + |hash|;
    assert seg[..p] == name && seg[p + 1..q] == hash && seg[q + 1..] == ext;
    assert forall j :: q < j < |seg| ==> seg[j] == ext[j - q - 1] && Alnum(ext[j - q - 1]);
    LastIndexIs(seg, '.', q);
    assert forall j :: p < j < q ==> seg[j] == hash[j - p - 1] && Hex(hash[j - p - 1]);
    LastIndexIs(seg[..q], '.', p);
    assert seg[..q][..p] == name;
  }

  lemma {:induction false} DottedFinds(seg: string)
    requires Dotted(seg).Some?
    ensures exists hash :: DottedMatch(seg, Dotted(seg).value.0, hash, Dotted(seg).value.1)
  {
    var q := LastIndexOf(seg, '.');
    var p := LastIndexOf(seg[..q], '.');
    assert seg == seg[..p] + "." + seg[p + 1..q] + "." + seg[q + 1..];
    assert DottedMatch(seg, seg[..p], seg[p + 1..q], seg[q + 1..]);
  }

  lemma {:induction false} DashedPlainMatches(seg: string, name: string, hash: string)
    requires DashedMatch(seg, name, hash, "")
    ensures Dashed(seg) == Some((name, ""))
  {
    var p := |name|;
    assert seg == name + "-" + hash;
    assert seg[..p] == name && seg[p + 1..] == hash;
    assert forall j :: p < j < |seg| ==> seg[j] == hash[j - p - 1] && Hex(hash[j - p - 1]);
    LastIndexIs(seg, '-', p);
    NoIndex(hash, '.');
  }

  lemma {:induction false} DashedRest(hash: string, ext: string)
    requires AllHex(hash) && |ext| > 1 && ext[0] == '.' && AllAlnum(ext[1..])
    ensures var rest := hash + ext;
            && IndexByte(rest, '.') == |hash| && rest[..|hash|] == hash && rest[|hash|..] == ext
                && rest[|hash| + 1..] == ext[1..]
            && (forall j :: 0 <= j < |rest| ==> rest[j] != '-')
  {
    var rest := hash + ext;
    assert forall j :: 0 <= j < |hash| ==> rest[j] == hash[j] && Hex(hash[j]);
    assert rest[|hash|] == '.';
    assert forall j :: |hash| < j < |rest| ==> rest[j] == ext[1..][j - |hash| - 1] && Alnum(ext[1..][j - |hash| - 1]);
    IndexIs(rest, '.', |hash|);
  }

  /** Likewise the dashed pattern. */
  lemma {:induction false} DashedMatches(seg: string, name: string, hash: string, ext: string)
    requires DashedMatch(seg, name, hash, ext)
    ensures Dashed(seg) == Some((name, ext))
  {
    if ext == "" {
      DashedPlainMatches(seg, name, hash);
    } else {
      var p, rest := |name|, hash + ext;
      DashedRest(hash, ext);
      assert seg == name + "-" + rest;
      assert seg[..p] == name && seg[p + 1..] == rest;
      assert forall j :: p < j < |seg| ==> seg[j] == rest[j - p - 1];
      LastIndexIs(seg, '-', p);
    }
  }

  lemma {:induction false} DashedFinds(seg: string)
    requires Dashed(seg).Some?
    ensures exists hash :: DashedMatch(seg, Dashed(seg).value.0, hash, Dashed(seg).value.1)
  {
    var p := LastIndexOf(seg, '-');
    var rest := seg[p + 1..];
    var d := IndexByte(rest, '.');
    if d < 0 {
      assert seg == seg[..p] + "-" + rest + "";
      assert DashedMatch(seg, seg[..p], rest, "");
    } else {
      assert seg == seg[..p] + "-" + rest[..d] + rest[d..] && rest[d..][1..] == rest[d + 1..];
      assert DashedMatch(seg, seg[..p], rest[..d], rest[d..]);
    }
  }

  // ---- normalising again ----

  /** What may follow a mark: nothing, or a dot and text without dots; no dash. */
  predicate AfterMark(ext: string) {
    && (forall j :: 0 <= j < |ext| ==> ext[j] != '-')
    && (ext == "" || ext[0] == '.')
    && forall j :: 0 < j < |ext| ==> ext[j] != '.'
  }

  lemma {:induction false} MarkedChars(head: string, ext: string)
    ensures var s, k := head + MARK + ext, |head|;
            && |s| == k + 6 + |ext| && s[k] == '{'
            && (forall j :: k <= j < k + 6 ==> s[j] != '.' && s[j] != '-')
            && (forall j :: k + 6 <= j < |s| ==> s[j] == ext[j - k - 6])
  {
    var s, k := head + MARK + ext, |head|;
    assert s[k..k + 6] == MARK;
    assert s[k] == MARK[0] && s[k + 1] == MARK[1] && s[k + 2] == MARK[2] && s[k + 3] == MARK[3] && s[k + 4] == MARK[4]
        && s[k + 5] == MARK[5];
  }

  lemma {:induction false} BraceIsNoHash(s: string, i: nat)
    requires i < |s| && s[i] == '{'
    ensures !AllHex(s) && !AllAlnum(s)
  {
    assert s[i] in s;
  }

  lemma {:induction false} MarkedIsNotDotted(head: string, ext: string)
    requires AfterMark(ext)
    ensures Dotted(head + MARK + ext) == None
  {
    var s, k := head + MARK + ext, |head|;
    MarkedChars(head, ext);
    var q := LastIndexOf(s, '.');
    if ext == "" {
      if q >= 0 {
        assert q < k;
        BraceIsNoHash(s[q + 1..], k - q - 1);
      }
    } else {
      assert s[k + 6] == '.';
      LastIndexIs(s, '.', k + 6);
      var p := LastIndexOf(s[..q], '.');
      assert p < k;
      BraceIsNoHash(s[p + 1..q], k - p - 1);
    }
  }

  lemma {:induction false} MarkedIsNotDashed(head: string, ext: string)
    requires AfterMark(ext)
    ensures Dashed(head + MARK + ext) == None
  {
    var s, k := head + MARK + ext, |head|;
    MarkedChars(head, ext);
    var p := LastIndexOf(s, '-');
    if p >= 0 {
      assert p < k;
      var rest := s[p + 1..];
      var m := k - p - 1;
      BraceIsNoHash(rest, m);
      BraceOnOneSide(rest, m, IndexByte(rest, '.'));
    }
  }

  lemma {:induction false} BraceOnOneSide(rest: string, m: nat, d: int)
    requires m < |rest| && rest[m] == '{' && d < |rest| && d != m
    ensures d >= 0 ==> !AllHex(rest[..d]) || !AllAlnum(rest[d + 1..])
  {
    if 0 <= m < d {
      BraceIsNoHash(rest[..d], m);
    } else if d >= 0 {
      BraceIsNoHash(rest[d + 1..], m - d - 1);
    }
  }

  lemma {:induction false} MarkedIsStable(head: string, ext: string)
    requires AfterMark(ext)
    ensures NormalizeSegment(head + MARK + ext) == head + MARK + ext
  {
    MarkedIsNotDotted(head, ext);
    MarkedIsNotDashed(head, ext);
    MarkedChars(head, ext);
    assert (head + MARK + ext)[|head|] in head + MARK + ext;
  }

  lemma {:induction false} DottedIsFixed(seg: string)
    requires Dotted(seg).Some?
    ensures NormalizeSegment(NormalizeSegment(seg)) == NormalizeSegment(seg)
  {
    var (name, ext) := Dotted(seg).value;
    var q := LastIndexOf(seg, '.');
    assert forall j :: 0 <= j < |ext| ==> ext[j] in ext && Alnum(ext[j]);
    assert AfterMark("." + ext);
    assert NormalizeSegment(seg) == (name + ".") + MARK + ("." + ext);
    MarkedIsStable(name + ".", "." + ext);
  }

  lemma {:induction false} DashedIsFixed(seg: string)
    requires Dotted(seg).None? && Dashed(seg).Some?
    ensures NormalizeSegment(NormalizeSegment(seg)) == NormalizeSegment(seg)
  {
    var (name, ext) := Dashed(seg).value;
    DashedFinds(seg);
    assert forall j :: 0 < j < |ext| ==> ext[j] == ext[1..][j - 1] && Alnum(ext[1..][j - 1]);
    assert AfterMark(ext);
    assert NormalizeSegment(seg) == (name + "-") + MARK + ext;
    MarkedIsStable(name + "-", ext);
  }

  lemma {:induction false} SegmentIsFixed(seg: string)
    ensures NormalizeSegment(NormalizeSegment(seg)) == NormalizeSegment(seg)
  {
    if Dotted(seg).Some? {
      DottedIsFixed(seg);
    } else if Dashed(seg).Some? {
      DashedIsFixed(seg);
    } else if |seg| >= 8 && AllHex(seg) {
      assert MARK == "" + MARK + "";
      MarkedIsStable("", "");
    }
  }

  lemma {:induction false} SegmentKeepsOut(seg: string)
    requires '/' !in seg
    ensures '/' !in NormalizeSegment(seg)
  {
    if Dotted(seg).Some? {
      DottedFinds(seg);
    } else if Dashed(seg).Some? {
      DashedFinds(seg);
    }
  }

  /** Normalising a normalised path changes nothing, for every path. */
  lemma {:induction false} PathIsFixed(path: string)
    ensures NormalizeBundlePath(NormalizeBundlePath(path)) == NormalizeBundlePath(path)
  {
    var segs := Split(path, '/');
    var once := NormalizeSegments(segs);
    JoinOfSplit(path, '/');
    forall i | 0 <= i < |once| ensures '/' !in once[i] && NormalizeSegment(once[i]) == once[i] {
      assert segs[i] in segs;
      SegmentKeepsOut(segs[i]);
      SegmentIsFixed(segs[i]);
    }
    SplitOfJoin(once, '/');
    assert NormalizeSegments(once) == once;
  }

  // ---- what becomes of a segment ----

  ghost predicate IsDotted(seg: string) { exists name, hash, ext :: DottedMatch(seg, name, hash, ext) }

  ghost predicate IsDashed(seg: string) { exists name, hash, ext :: DashedMatch(seg, name, hash, ext) }

  predicate IsBareHash(seg: string) { |seg| >= 8 && AllHex(seg) }

  /** The dotted pattern comes first. */
  lemma {:induction false} DottedBecomes(seg: string, name: string, hash: string, ext: string)
    requires DottedMatch(seg, name, hash, ext)
    ensures NormalizeSegment(seg) == name + ".{hash}." + ext
  {
    DottedMatches(seg, name, hash, ext);
    assert name + "." + MARK + "." + ext == name + ".{hash}." + ext;
  }

  /** Then the dashed one. */
  lemma {:induction false} DashedBecomes(seg: string, name: string, hash: string, ext: string)
    requires DashedMatch(seg, name, hash, ext) && !IsDotted(seg)
    ensures NormalizeSegment(seg) == name + "-{hash}" + ext
  {
    if Dotted(seg).Some? {
      DottedFinds(seg);
      assert false;
    }
    DashedMatches(seg, name, hash, ext);
    DashMark(name, ext);
  }

  lemma DashMark(name: string, ext: string)
    ensures name + "-" + MARK + ext == name + "-{hash}" + ext
  {
    assert "-" + MARK == "-{hash}";
    assert name + "-" + MARK == name + ("-" + MARK);
  }

  /** Then a bare hash; every other segment is kept. */
  lemma {:induction false} OthersStay(seg: string)
    requires !IsDotted(seg) && !IsDashed(seg)
    ensures NormalizeSegment(seg) == if IsBareHash(seg) then "{hash}" else seg
  {
    if Dotted(seg).Some? {
      DottedFinds(seg);
      assert false;
    }
    if Dashed(seg).Some? {
      DashedFinds(seg);
      assert false;
    }
  }

  lemma {:induction false} JoinAppends(a: seq<string>, b: seq<string>, sep: char)
    requires a != [] && b != []
    ensures Join(a + b, sep) == Join(a, sep) + [sep] + Join(b, sep)
  {
    assert (a + b)[0] == a[0] && (a + b)[1..] == a[1..] + b;
    if |a| == 1 {
      assert a[1..] + b == b;
    } else {
      JoinAppends(a[1..], b, sep);
      assert a[0] + [sep] + (Join(a[1..], sep) + [sep] + Join(b, sep)) == Join(a, sep) + [sep] + Join(b, sep);
    }
  }

  lemma {:induction false} SegmentsAppend(a: seq<string>, b: seq<string>)
    ensures NormalizeSegments(a + b) == NormalizeSegments(a) + NormalizeSegments(b)
  {
  }

  /** A slash separates: what stands before it and after it is normalised on its own. */
  lemma {:induction false} SlashesSeparate(a: string, b: string)
    ensures NormalizeBundlePath(a + ['/'] + b) == NormalizeBundlePath(a) + ['/'] + NormalizeBundlePath(b)
  {
    SplitAt(a, b, '/');
    SegmentsAppend(Split(a, '/'), Split(b, '/'));
    JoinAppends(NormalizeSegments(Split(a, '/')), NormalizeSegments(Split(b, '/')), '/');
  }

  lemma {:induction false} LoneSegment(seg: string)
    requires '/' !in seg
    ensures NormalizeBundlePath(seg) == NormalizeSegment(seg)
  {
    SplitWhole(seg, '/');
    assert NormalizeSegments([seg]) == [NormalizeSegment(seg)];
  }
}
