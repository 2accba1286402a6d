/** One minified frame mapped onto a parsed source map, with a code excerpt around the line. */
module Symbolicate {
  import opened Wrappers
  import opened Powers
  import opened SourceMap
  import opened Text

  /** A parsed document: decoded lines plus its source and name tables. */
  datatype Document = Document(lines: seq<Line>, sources: seq<string>, contents: seq<Option<string>>,
      names: seq<string>, sourceRoot: string)

  /** 1-based position; 0 or less is unknown. */
  datatype Frame = Frame(lineno: int, colno: int)

  datatype Snippet = Snippet(path: string, line: int, pre: seq<string>, lineText: string, post: seq<string>)

  datatype FrameResult = Unresolved
      | Resolved(source: string, srcLine: int, srcCol: int, function_: string, context: Option<Snippet>)

  const RADIUS := 2

  function JoinSourceRoot(root: string, source: string): string {
    var trimmed := if |root| > 0 && root[|root| - 1] == '/' then root[..|root| - 1] else root;
    if trimmed == "" then source
    else if |source| > 0 && source[0] == '/' then trimmed + source
    else trimmed + "/" + source
  }

  function Reverse<T>(s: seq<T>): (r: seq<T>)
    ensures |r| == |s| && forall i :: 0 <= i < |s| ==> r[i] == s[|s| - 1 - i]
  {
    if s == [] then [] else Reverse(s[1..]) + [s[0]]
  }

  function Clip(x: int, lo: int, hi: int): int { if x < lo then lo else if x > hi then hi else x }

  /** The excerpt: the line, up to two lines above (nearest first) and up to two below. */
  function SnippetOf(path: string, content: string, line: int): Option<Snippet> {
    var lines := Split(content, '\n');
    if line < 1 || line > |lines| then None
    else Some(Snippet(path, line, Reverse(lines[Clip(line - 1 - RADIUS, 0, line - 1)..line - 1]), lines[line - 1],
                      lines[line..Clip(line + RADIUS, line, |lines|)]))
  }

  lemma ReadUpwards(lines: seq<string>, end: int, pre: seq<string>)
    requires 0 <= end <= |lines| && |pre| <= end
    requires forall j :: 0 <= j < |pre| ==> pre[j] == lines[end - 1 - j]
    ensures pre == Reverse(lines[end - |pre|..end])
  {
    var window := lines[end - |pre|..end];
    assert forall j :: 0 <= j < |pre| ==> Reverse(window)[j] == window[|pre| - 1 - j];
  }

  method LinesAbove(lines: seq<string>, end: int) returns (pre: seq<string>)
    requires 0 <= end <= |lines|
    ensures pre == Reverse(lines[Clip(end - RADIUS, 0, end)..end])
  {
    pre := [];
    var i := end - 1;
    while i >= 0 && |pre| < RADIUS
      invariant -1 <= i && |pre| == end - 1 - i && |pre| <= RADIUS
      invariant forall j :: 0 <= j < |pre| ==> pre[j] == lines[end - 1 - j]
    {
      pre := pre + [lines[i]];
      i := i - 1;
    }
    ReadUpwards(lines, end, pre);
  }

  method LinesBelow(lines: seq<string>, start: int) returns (post: seq<string>)
    requires 0 <= start <= |lines|
    ensures post == lines[start..Clip(start + RADIUS, start, |lines|)]
  {
    post := [];
    var i := start;
    while i < |lines| && |post| < RADIUS
      invariant start <= i <= |lines| && |post| == i - start && |post| <= RADIUS
      invariant post == lines[start..i]
    {
      assert lines[start..i + 1] == lines[start..i] + [lines[i]];
      post := post + [lines[i]];
      i := i + 1;
    }
  }

  /** The excerpt, its two contexts read by loops. */
  method SnippetAt(path: string, content: string, line: int) returns (r: Option<Snippet>)
    ensures r == SnippetOf(path, content, line)
  {
    var lines := Split(content, '\n');
    if line < 1 || line > |lines| {
      return None;
    }
    var pre := LinesAbove(lines, line - 1);
    var post := LinesBelow(lines, line);
    r := Some(Snippet(path, line, pre, lines[line - 1], post));
  }

  function SymbolicateFrame(m: Document, f: Frame): FrameResult {
    if f.lineno <= 0 || f.colno <= 0 then Unresolved else
    match LookupIn(m.lines, f.lineno - 1, f.colno - 1)
    case None => Unresolved
    case Some(seg) =>
      if seg.srcIdx < 0 || seg.srcIdx >= |m.sources| then Unresolved else
      var source, srcLine := JoinSourceRoot(m.sourceRoot, m.sources[seg.srcIdx]), Wrap64(seg.srcLine + 1);
      Resolved(source, srcLine, Wrap64(seg.srcCol + 1),
               if 0 <= seg.nameIdx < |m.names| then m.names[seg.nameIdx] else "",
               if seg.srcIdx < |m.contents| && m.contents[seg.srcIdx].Some?
                   then SnippetOf(source, m.contents[seg.srcIdx].value, srcLine) else None)
  }

  /** Pre reversed, the line and Post read as one piece of the content: up to two lines on each side of the line. */
  predicate IsWindow(s: Snippet, lines: seq<string>, line: int) {
    && 1 <= line <= |lines| && s.line == line && s.lineText == lines[line - 1]
    && |s.pre| == (if line <= 2 then line - 1 else 2)
    && |s.post| == (if line + 2 > |lines| then |lines| - line else 2)
    && Reverse(s.pre) + [s.lineText] + s.post == lines[line - 1 - |s.pre|..line + |s.post|]
  }

  lemma ReverseTwice<T>(s: seq<T>)
    ensures Reverse(Reverse(s)) == s
  {
  }

  lemma Joined<T>(s: seq<T>, lo: nat, at: nat, hi: nat)
    requires lo <= at < hi <= |s|
    ensures s[lo..at] + [s[at]] + s[at + 1..hi] == s[lo..hi]
  {
  }

  /** The excerpt between two bounds. */
  lemma {:induction false} WindowAt(pre: seq<string>, lines: seq<string>, line: int, post: seq<string>, lo: int,
      hi: int)
    requires 0 <= lo < line <= hi <= |lines| && pre == Reverse(lines[lo..line - 1]) && post == lines[line..hi]
    ensures Reverse(pre) + [lines[line - 1]] + post == lines[lo..hi] && |pre| == line - 1 - lo && |post| == hi - line
  {
    ReverseTwice(lines[lo..line - 1]);
    Joined(lines, lo, line - 1, hi);
  }

  lemma {:induction false} AboveAndBelow(s: Snippet, lines: seq<string>, line: int)
    requires 1 <= line <= |lines| && s.line == line && s.lineText == lines[line - 1]
    requires s.pre == Reverse(lines[Clip(line - 1 - RADIUS, 0, line - 1)..line - 1])
    requires s.post == lines[line..Clip(line + RADIUS, line, |lines|)]
    ensures IsWindow(s, lines, line)
  {
    WindowAt(s.pre, lines, line, s.post, Clip(line - 1 - RADIUS, 0, line - 1), Clip(line + RADIUS, line, |lines|));
  }

  lemma {:induction false} SnippetIsAWindow(path: string, content: string, line: int)
    ensures var r, lines := SnippetOf(path, content, line), Split(content, '\n');
            if 1 <= line <= |lines| then r.Some? && r.value.path == path && IsWindow(r.value, lines, line) else r.None?
  {
    var lines := Split(content, '\n');
    if 1 <= line <= |lines| {
      AboveAndBelow(SnippetOf(path, content, line).value, lines, line);
    }
  }

  /** The source content a segment points at, when the map carries it. */
  function ContentOf(m: Document, seg: Segment): Option<string> {
    if 0 <= seg.srcIdx < |m.contents| then m.contents[seg.srcIdx] else None
  }

  /**
   The frame's result is this segment, shifted to one-based positions, with an excerpt exactly when the content has
   that line.
   */
  predicate Shows(m: Document, f: Frame, seg: Segment) {
    var r, content := SymbolicateFrame(m, f), ContentOf(m, seg);
    && r.Resolved? && 0 <= seg.srcIdx < |m.sources|
    && r.srcLine == Wrap64(seg.srcLine + 1) && r.srcCol == Wrap64(seg.srcCol + 1)
    && r.source == JoinSourceRoot(m.sourceRoot, m.sources[seg.srcIdx])
    && r.function_ == (if 0 <= seg.nameIdx < |m.names| then m.names[seg.nameIdx] else "")
    && (r.context.Some? <==> content.Some? && 1 <= r.srcLine <= |Split(content.value, '\n')|)
    && (r.context.Some? ==>
          r.context.value.path == r.source && IsWindow(r.context.value, Split(content.value, '\n'), r.srcLine))
  }

  /** A frame is resolved exactly when its one-based position has a segment with a source the map knows. */
  lemma ResolvedExactlyWhen(m: Document, f: Frame)
    ensures SymbolicateFrame(m, f).Resolved? <==>
              && f.lineno >= 1 && f.colno >= 1
              && var hit := LookupIn(m.lines, f.lineno - 1, f.colno - 1);
                  hit.Some? && 0 <= hit.value.srcIdx < |m.sources|
  {
  }

  /** A source root, with or without its final slash, goes in front of the source with exactly one slash in between. */
  lemma SourceRootJoins(root: string, source: string)
    requires root != "" && root[|root| - 1] != '/' && (source != "" ==> source[0] != '/')
    ensures JoinSourceRoot(root, source) == JoinSourceRoot(root + "/", source) == root + "/" + source
    ensures JoinSourceRoot(root, "/" + source) == JoinSourceRoot(root + "/", "/" + source) == root + "/" + source
    ensures JoinSourceRoot("", source) == JoinSourceRoot("/", source) == source
  {
    assert (root + "/")[..|root|] == root;
  }

  lemma {:induction false} ShowsTheHit(m: Document, f: Frame)
    requires SymbolicateFrame(m, f).Resolved?
    ensures var hit := LookupIn(m.lines, f.lineno - 1, f.colno - 1); hit.Some? && Shows(m, f, hit.value)
  {
    var r, seg := SymbolicateFrame(m, f), LookupIn(m.lines, f.lineno - 1, f.colno - 1).value;
    if ContentOf(m, seg).Some? {
      SnippetIsAWindow(r.source, ContentOf(m, seg).value, r.srcLine);
      assert r.context == SnippetOf(r.source, ContentOf(m, seg).value, r.srcLine);
    } else {
      assert r.context.None?;
    }
  }

  /**
   On a map decoded from any string, a resolved frame shows a segment of the frame's own line at or before
   its column; with columns in order it is the last such segment.
   */
  lemma ResolvedShowsTheSegment(mappings: string, m: Document, f: Frame) returns (seg: Segment)
    requires DecodeLines(mappings, 0, START) == Ok(m.lines)
    requires SymbolicateFrame(m, f).Resolved?
    ensures 1 <= f.lineno <= |m.lines| && seg in m.lines[f.lineno - 1] && Shows(m, f, seg)
    ensures seg.genLine == f.lineno - 1 && seg.genCol <= f.colno - 1
    ensures Ascending(m.lines[f.lineno - 1]) ==> LastAtOrBefore(m.lines[f.lineno - 1], f.colno - 1) == Some(seg)
  {
    ShowsTheHit(m, f);
    var line, col := f.lineno - 1, f.colno - 1;
    seg := LookupIn(m.lines, line, col).value;
    HitIsAtOrBefore(m.lines, line, col);
    assert NameLine(m.lines[line], line) by { SegmentsNameTheirLine(mappings, 0, START, line); }
    if Ascending(m.lines[line]) {
      LookupIsScan(m.lines, line, col);
    }
  }
}
