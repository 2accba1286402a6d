/**
 Source map mappings: the delta decoder over lines and segments, the encoder of ECMA-426,
 section "Mappings structure", and the binary-search lookup.
 */
module SourceMap {
  import opened Wrappers
  import opened Powers
  import opened Vlq
  import opened Text

  /** One mapping with absolute values; srcIdx and nameIdx are -1 when absent. */
  datatype Segment = Segment(genLine: int, genCol: int, srcIdx: int, srcLine: int, srcCol: int, nameIdx: int)

  type Line = seq<Segment>

  /** The running values that persist across segments and lines. */
  datatype Deltas = Deltas(srcIdx: int, srcLine: int, srcCol: int, nameIdx: int)

  const START := Deltas(0, 0, 0, 0)

  /** The part of `s` before the first `b`, and the part after it. */
  function Cut(s: string, b: char): (string, string) {
    var i := IndexByte(s, b);
    if i >= 0 then (s[..i], s[i + 1..]) else (s, "")
  }

  predicate FieldCountOk(n: nat) { n == 1 || n == 3 || n == 4 || n == 5 }

  /** The deltas after one segment's fields; three fields move nothing but the column. */
  function Advance(d: Deltas, fields: seq<int>): Deltas
    requires FieldCountOk(|fields|)
  {
    if |fields| < 4 then d else
    Deltas(Wrap64(d.srcIdx + fields[1]), Wrap64(d.srcLine + fields[2]), Wrap64(d.srcCol + fields[3]),
           if |fields| == 5 then Wrap64(d.nameIdx + fields[4]) else d.nameIdx)
  }

  function Resolve(line: nat, genCol: int, d: Deltas, fields: seq<int>): Segment
    requires FieldCountOk(|fields|)
  {
    var col, d' := Wrap64(genCol + fields[0]), Advance(d, fields);
    if |fields| < 4 then Segment(line, col, -1, 0, 0, -1)
    else Segment(line, col, d'.srcIdx, d'.srcLine, d'.srcCol, if |fields| == 5 then d'.nameIdx else -1)
  }

  datatype LineResult = LineOk(segs: Line, deltas: Deltas) | LineErr

  function PutFirst(seg: Segment, r: LineResult): LineResult {
    if r.LineOk? then r.(segs := [seg] + r.segs) else r
  }

  /** The segments of one line, from column `genCol` and deltas `d` on; empty segments are skipped. */
  function DecodeLine(part: string, line: nat, genCol: int, d: Deltas): LineResult
    decreases |part|
  {
    if part == "" then LineOk([], d) else
    var (segStr, rest) := Cut(part, ',');
    if segStr == "" then DecodeLine(rest, line, genCol, d) else
    match DecodeFields(segStr, 0, 0)
    case Err(_) => LineErr
    case Ok(fields) =>
      if !FieldCountOk(|fields|) then LineErr else
      PutFirst(Resolve(line, genCol, d, fields), DecodeLine(rest, line, Wrap64(genCol + fields[0]), Advance(d, fields)))
  }

  function PutLine(l: Line, r: Result<seq<Line>>): Result<seq<Line>> {
    if r.Ok? then Ok([l] + r.value) else r
  }

  /** The lines of a mappings string from line number `line` and deltas `d` on. */
  function DecodeLines(s: string, line: nat, d: Deltas): Result<seq<Line>>
    decreases |s|
  {
    if s == "" then Ok([]) else
    var (part, rest) := Cut(s, ';');
    match DecodeLine(part, line, 0, d)
    case LineErr => Err("mappings")
    case LineOk(segs, d') => PutLine(segs, DecodeLines(rest, line + 1, d'))
  }

  function After(segs: Line, r: LineResult): LineResult {
    if r.LineOk? then r.(segs := segs + r.segs) else r
  }

  function AfterLines(ls: seq<Line>, r: Result<seq<Line>>): Result<seq<Line>> {
    if r.Ok? then Ok(ls + r.value) else r
  }

  class Map {
    var lines: seq<Line>

    constructor ()
      ensures lines == []
    {
      lines := [];
    }

    /** The fields of one segment, as many as a segment may have. */
    method ReadFields(segStr: string) returns (fields: Result<seq<int>>)
      ensures fields.Ok? ==> DecodeFields(segStr, 0, 0) == fields && FieldCountOk(|fields.value|)
      ensures fields.Err? ==>
                var all := DecodeFields(segStr, 0, 0); all.Err? || !FieldCountOk(|all.value|)
    {
      fields := DecodeVLQSegment(segStr);
      if fields.Ok? && (|fields.value| < 1 || |fields.value| == 2 || |fields.value| > 5) {
        return Err("invalid segment");
      }
    }

    /** One line of decodeMappings: the column starts at 0, the deltas carry over. */
    method DecodeOneLine(part: string, line: nat, d: Deltas) returns (r: LineResult)
      ensures r == DecodeLine(part, line, 0, d)
    {
      var segsPart, genCol, deltas := part, 0, d;
      var segs: Line := [];
      NothingBeforeSegment(DecodeLine(part, line, 0, d));
      while |segsPart| > 0
        invariant DecodeLine(part, line, 0, d) == After(segs, DecodeLine(segsPart, line, genCol, deltas))
        decreases |segsPart|
      {
        var (segStr, rest) := Cut(segsPart, ',');
        UnfoldSegment(segsPart, line, genCol, deltas);
        segsPart := rest;
        if segStr == "" {
          continue;
        }
        var read := ReadFields(segStr);
        if read.Err? {
          return LineErr;
        }
        var fields := read.value;
        var seg := Resolve(line, genCol, deltas, fields);
        genCol, deltas := Wrap64(genCol + fields[0]), Advance(deltas, fields);
        MoveSegment(segs, seg, DecodeLine(segsPart, line, genCol, deltas));
        segs := segs + [seg];
      }
      assert segs + [] == segs;
      r := LineOk(segs, deltas);
    }

    /** Appends the decoded lines; a malformed string is an error. */
    method DecodeMappings(mappings: string) returns (ok: bool)
      requires lines == []
      modifies this
      ensures ok <==> DecodeLines(mappings, 0, START).Ok?
      ensures ok ==> lines == DecodeLines(mappings, 0, START).value
    {
      var s, line, d := mappings, 0, START;
      NothingBefore(DecodeLines(s, 0, d));
      while |s| > 0
        invariant DecodeLines(mappings, 0, START) == AfterLines(lines, DecodeLines(s, line, d))
        decreases |s|
      {
        var (part, rest) := Cut(s, ';');
        var decoded := DecodeOneLine(part, line, d);
        if decoded.LineErr? {
          return false;
        }
        MoveLine(lines, decoded.segs, DecodeLines(rest, line + 1, decoded.deltas));
        lines := lines + [decoded.segs];
        s, line, d := rest, line + 1, decoded.deltas;
      }
      assert lines + [] == lines;
      ok := true;
    }
  }

  /** What reading one comma-separated part does. */
  lemma UnfoldSegment(s: string, line: nat, genCol: int, d: Deltas)
    requires s != ""
    ensures var (segStr, rest) := Cut(s, ',');
            && (segStr == "" ==> DecodeLine(s, line, genCol, d) == DecodeLine(rest, line, genCol, d))
            && (segStr != "" ==>
                  var fields := DecodeFields(segStr, 0, 0);
                  if fields.Err? || !FieldCountOk(|fields.value|) then DecodeLine(s, line, genCol, d) == LineErr
                  else DecodeLine(s, line, genCol, d)
                       == PutFirst(Resolve(line, genCol, d, fields.value),
                                   DecodeLine(rest, line, Wrap64(genCol + fields.value[0]), Advance(d, fields.value))))
  {
  }

  lemma NothingBeforeSegment(r: LineResult)
    ensures After([], r) == r
  {
    assert r.LineOk? ==> [] + r.segs == r.segs;
  }

  lemma MoveSegment(segs: Line, seg: Segment, r: LineResult)
    ensures After(segs, PutFirst(seg, r)) == After(segs + [seg], r)
  {
    assert r.LineOk? ==> segs + ([seg] + r.segs) == (segs + [seg]) + r.segs;
  }

  lemma NothingBefore(r: Result<seq<Line>>)
    ensures AfterLines([], r) == r
  {
    assert r.Ok? ==> [] + r.value == r.value;
  }

  lemma MoveLine(ls: seq<Line>, l: Line, r: Result<seq<Line>>)
    ensures AfterLines(ls, PutLine(l, r)) == AfterLines(ls + [l], r)
  {
    assert r.Ok? ==> ls + ([l] + r.value) == (ls + [l]) + r.value;
  }

  // ---- the encoder ----

  function DeltaFields(seg: Segment, genCol: int, d: Deltas): seq<int> {
    var col, src, line, srcCol := seg.genCol - genCol, seg.srcIdx - d.srcIdx, seg.srcLine - d.srcLine,
        seg.srcCol - d.srcCol;
    if seg.srcIdx < 0 then [col]
    else if seg.nameIdx < 0 then [col, src, line, srcCol]
    else [col, src, line, srcCol, seg.nameIdx - d.nameIdx]
  }

  /** The deltas after a segment: its own values where it has them. */
  function Moved(seg: Segment, d: Deltas): Deltas {
    if seg.srcIdx < 0 then d
    else Deltas(seg.srcIdx, seg.srcLine, seg.srcCol, if seg.nameIdx < 0 then d.nameIdx else seg.nameIdx)
  }

  function MovedBy(segs: Line, d: Deltas): Deltas
    decreases |segs|
  {
    if segs == [] then d else MovedBy(segs[1..], Moved(segs[0], d))
  }

  function EncodeLine(segs: Line, genCol: int, d: Deltas): string
    decreases |segs|
  {
    if segs == [] then ""
    else EncodeFields(DeltaFields(segs[0], genCol, d))
         + (if |segs| == 1 then "" else "," + EncodeLine(segs[1..], segs[0].genCol, Moved(segs[0], d)))
  }

  function EncodeLines(lines: seq<Line>, d: Deltas): string
    decreases |lines|
  {
    if lines == [] then ""
    else EncodeLine(lines[0], 0, d) + (if |lines| == 1 then "" else ";" + EncodeLines(lines[1..], MovedBy(lines[0], d)))
  }

  predicate InRange(x: int) { 0 <= x < TWO62 }

  /** A 1-, 4- or 5-field segment of line `line`; columns need not be in order. */
  predicate Encodable(seg: Segment, line: int) {
    && seg.genLine == line && InRange(seg.genCol)
    && if seg.srcIdx == -1 then seg.srcLine == 0 && seg.srcCol == 0 && seg.nameIdx == -1
       else
         && InRange(seg.srcIdx) && InRange(seg.srcLine) && InRange(seg.srcCol)
         && (seg.nameIdx == -1 || InRange(seg.nameIdx))
  }

  predicate EncodableLine(segs: Line, line: int) {
    forall seg :: seg in segs ==> Encodable(seg, line)
  }

  predicate EncodableTable(lines: seq<Line>, first: int) {
    forall i :: 0 <= i < |lines| ==> EncodableLine(lines[i], first + i)
  }

  predicate DeltasInRange(d: Deltas) {
    InRange(d.srcIdx) && InRange(d.srcLine) && InRange(d.srcCol) && InRange(d.nameIdx)
  }

  lemma CutAt(s: string, b: char, rest: string)
    requires b !in s
    ensures Cut(s, b) == (s, "")
    ensures Cut(s + [b] + rest, b) == (s, rest)
  {
    var t := s + [b] + rest;
    assert t[|s|] == b;
    assert IndexByte(t, b) == |s| by {
      assert forall j :: 0 <= j < |s| ==> t[j] == s[j];
    }
    assert t[..|s|] == s && t[|s| + 1..] == rest;
  }

  /** One segment's delta fields resolve to the segment and move the deltas to its values. */
  lemma SegmentResolves(seg: Segment, line: nat, genCol: int, d: Deltas)
    requires Encodable(seg, line) && InRange(genCol) && DeltasInRange(d)
    ensures var fields := DeltaFields(seg, genCol, d);
            && FieldCountOk(|fields|)
            && DecodeFields(EncodeFields(fields), 0, 0) == Ok(fields)
            && Resolve(line, genCol, d, fields) == seg
            && Wrap64(genCol + fields[0]) == seg.genCol
            && Advance(d, fields) == Moved(seg, d)
            && DeltasInRange(Moved(seg, d))
  {
    FieldsDecode(DeltaFields(seg, genCol, d));
  }

  lemma FieldText(fields: seq<int>)
    requires fields != []
    ensures EncodeFields(fields) != "" && ',' !in EncodeFields(fields) && ';' !in EncodeFields(fields)
  {
    FieldsAreBase64(fields);
  }

  lemma EncodedLineForm(segs: Line, genCol: int, d: Deltas)
    requires segs != []
    ensures var enc, tail := EncodeFields(DeltaFields(segs[0], genCol, d)),
            EncodeLine(segs[1..], segs[0].genCol, Moved(segs[0], d));
            && EncodeLine(segs, genCol, d) == (if |segs| == 1 then enc else enc + [','] + tail)
            && (|segs| == 1 ==> tail == "")
  {
  }

  lemma CutFirstSegment(segs: Line, genCol: int, d: Deltas)
    requires segs != []
    ensures var enc := EncodeFields(DeltaFields(segs[0], genCol, d));
            && enc != "" && EncodeLine(segs, genCol, d) != ""
            && Cut(EncodeLine(segs, genCol, d), ',') == (enc, EncodeLine(segs[1..], segs[0].genCol, Moved(segs[0], d)))
  {
    var fields := DeltaFields(segs[0], genCol, d);
    EncodedLineForm(segs, genCol, d);
    FieldText(fields);
    CutAt(EncodeFields(fields), ',', EncodeLine(segs[1..], segs[0].genCol, Moved(segs[0], d)));
  }

  lemma LineStep(s: string, enc: string, tail: string, fields: seq<int>, line: nat, genCol: int, d: Deltas, rest: Line,
      end: Deltas)
    requires s != "" && enc != "" && Cut(s, ',') == (enc, tail) && DecodeFields(enc, 0, 0) == Ok(fields)
             && FieldCountOk(|fields|)
    requires DecodeLine(tail, line, Wrap64(genCol + fields[0]), Advance(d, fields)) == LineOk(rest, end)
    ensures DecodeLine(s, line, genCol, d) == LineOk([Resolve(line, genCol, d, fields)] + rest, end)
  {
    UnfoldSegment(s, line, genCol, d);
  }

  lemma HeadAndTail(segs: Line, line: int)
    requires segs != [] && EncodableLine(segs, line)
    ensures Encodable(segs[0], line) && EncodableLine(segs[1..], line) && [segs[0]] + segs[1..] == segs
  {
    assert segs[0] in segs && forall x :: x in segs[1..] ==> x in segs;
  }

  /** If the rest of the line decodes, so does the whole. */
  lemma LineDecodesFrom(segs: Line, line: nat, genCol: int, d: Deltas, end: Deltas)
    requires segs != [] && EncodableLine(segs, line) && InRange(genCol) && DeltasInRange(d)
    requires DecodeLine(EncodeLine(segs[1..], segs[0].genCol, Moved(segs[0], d)), line, segs[0].genCol,
             Moved(segs[0], d)) == LineOk(segs[1..], end)
    ensures DecodeLine(EncodeLine(segs, genCol, d), line, genCol, d) == LineOk(segs, end)
  {
    var seg, fields := segs[0], DeltaFields(segs[0], genCol, d);
    HeadAndTail(segs, line);
    SegmentResolves(seg, line, genCol, d);
    CutFirstSegment(segs, genCol, d);
    var tail := EncodeLine(segs[1..], seg.genCol, Moved(seg, d));
    LineStep(EncodeLine(segs, genCol, d), EncodeFields(fields), tail, fields, line, genCol, d, segs[1..], end);
  }

  lemma {:induction false} LineDecodes(segs: Line, line: nat, genCol: int, d: Deltas)
    requires EncodableLine(segs, line) && InRange(genCol) && DeltasInRange(d)
    ensures DecodeLine(EncodeLine(segs, genCol, d), line, genCol, d) == LineOk(segs, MovedBy(segs, d))
    ensures DeltasInRange(MovedBy(segs, d))
    decreases |segs|
  {
    if segs == [] {
    } else {
      HeadAndTail(segs, line);
      assert InRange(segs[0].genCol) && DeltasInRange(Moved(segs[0], d));
      LineDecodes(segs[1..], line, segs[0].genCol, Moved(segs[0], d));
      LineDecodesFrom(segs, line, genCol, d, MovedBy(segs, d));
    }
  }

  /** An encoded line holds no line separator, and is empty exactly when the line has no segments. */
  lemma {:induction false} LineText(segs: Line, genCol: int, d: Deltas)
    ensures EncodeLine(segs, genCol, d) == "" <==> segs == []
    ensures ';' !in EncodeLine(segs, genCol, d)
    decreases |segs|
  {
    if segs == [] {
    } else {
      FieldText(DeltaFields(segs[0], genCol, d));
      LineText(segs[1..], segs[0].genCol, Moved(segs[0], d));
    }
  }

  /** The one thing the text form cannot carry: a last line without segments. */
  function WithoutFinalEmptyLine(lines: seq<Line>): seq<Line> {
    if lines != [] && lines[|lines| - 1] == [] then lines[..|lines| - 1] else lines
  }

  /** One step of DecodeLines, once the first line's text and segments are known. */
  lemma UnfoldLines(s: string, part: string, rest: string, segs: Line, line: nat, d: Deltas, d': Deltas)
    requires s != "" && Cut(s, ';') == (part, rest) && DecodeLine(part, line, 0, d) == LineOk(segs, d')
    ensures DecodeLines(s, line, d) == PutLine(segs, DecodeLines(rest, line + 1, d'))
  {
  }

  lemma TailIsEncodable(lines: seq<Line>, line: int)
    requires lines != [] && EncodableTable(lines, line)
    ensures EncodableLine(lines[0], line) && EncodableTable(lines[1..], line + 1)
  {
    assert EncodableLine(lines[0], line + 0);
    forall i | 0 <= i < |lines[1..]| ensures EncodableLine(lines[1..][i], line + 1 + i) {
      assert EncodableLine(lines[i + 1], line + (i + 1));
    }
  }

  /** What an encoded line guarantees to the split at ';'. */
  lemma LineIsCut(first: Line, tail: string, line: nat, d: Deltas)
    requires EncodableLine(first, line) && DeltasInRange(d)
    ensures var part := EncodeLine(first, 0, d);
            && Cut(part, ';') == (part, "") && Cut(part + [';'] + tail, ';') == (part, tail)
            && (part == "" <==> first == [])
            && DecodeLine(part, line, 0, d) == LineOk(first, MovedBy(first, d)) && DeltasInRange(MovedBy(first, d))
  {
    LineDecodes(first, line, 0, d);
    LineText(first, 0, d);
    CutAt(EncodeLine(first, 0, d), ';', tail);
  }

  lemma LastLineDecodes(first: Line, line: nat, d: Deltas)
    requires EncodableLine(first, line) && DeltasInRange(d)
    ensures DecodeLines(EncodeLine(first, 0, d), line, d) == Ok(if first == [] then [] else [first])
  {
    var part, d' := EncodeLine(first, 0, d), MovedBy(first, d);
    LineIsCut(first, "", line, d);
    if first != [] {
      UnfoldLines(part, part, "", first, line, d, d');
      assert DecodeLines("", line + 1, d') == Ok([]);
      assert [first] + [] == [first];
    }
  }

  lemma FirstLineDecodes(first: Line, tail: string, line: nat, d: Deltas)
    requires EncodableLine(first, line) && DeltasInRange(d)
    ensures DeltasInRange(MovedBy(first, d))
    ensures DecodeLines(EncodeLine(first, 0, d) + [';'] + tail, line, d) ==
            PutLine(first, DecodeLines(tail, line + 1, MovedBy(first, d)))
  {
    var part := EncodeLine(first, 0, d);
    LineIsCut(first, tail, line, d);
    UnfoldLines(part + [';'] + tail, part, tail, first, line, d, MovedBy(first, d));
  }

  lemma DropsLast(first: Line, rest: seq<Line>)
    requires rest != []
    ensures [first] + WithoutFinalEmptyLine(rest) == WithoutFinalEmptyLine([first] + rest)
  {
  }

  lemma Separated(a: string, b: string)
    ensures a + (";" + b) == a + [';'] + b
  {
  }

  lemma {:induction false} EncodedFirst(lines: seq<Line>, d: Deltas)
    requires |lines| > 1
    ensures EncodeLines(lines, d) == EncodeLine(lines[0], 0, d) + [';'] + EncodeLines(lines[1..], MovedBy(lines[0], d))
  {
    Separated(EncodeLine(lines[0], 0, d), EncodeLines(lines[1..], MovedBy(lines[0], d)));
  }

  lemma {:induction false} OneLineDecodes(first: Line, line: nat, d: Deltas)
    requires EncodableLine(first, line) && DeltasInRange(d)
    ensures DecodeLines(EncodeLines([first], d), line, d) == Ok(WithoutFinalEmptyLine([first]))
  {
    LastLineDecodes(first, line, d);
    assert EncodeLines([first], d) == EncodeLine(first, 0, d);
    assert [first][..0] == [];
  }

  /** If the lines below the first decode, so do all. */
  lemma {:induction false} LinesDecodeFrom(lines: seq<Line>, line: nat, d: Deltas, rest: seq<Line>, tail: string,
      d': Deltas)
    requires |lines| > 1 && EncodableLine(lines[0], line) && DeltasInRange(d)
    requires rest == lines[1..] && d' == MovedBy(lines[0], d) && tail == EncodeLines(rest, d')
    requires DecodeLines(tail, line + 1, d') == Ok(WithoutFinalEmptyLine(rest))
    ensures DecodeLines(EncodeLines(lines, d), line, d) == Ok(WithoutFinalEmptyLine(lines))
  {
    FirstLineDecodes(lines[0], tail, line, d);
    EncodedFirst(lines, d);
    DropsLast(lines[0], rest);
    assert [lines[0]] + rest == lines;
  }

  lemma {:induction false} LinesDecode(lines: seq<Line>, line: nat, d: Deltas)
    requires EncodableTable(lines, line) && DeltasInRange(d)
    ensures DecodeLines(EncodeLines(lines, d), line, d) == Ok(WithoutFinalEmptyLine(lines))
    decreases |lines|
  {
    if lines == [] {
    } else if |lines| == 1 {
      TailIsEncodable(lines, line);
      OneLineDecodes(lines[0], line, d);
      assert lines == [lines[0]];
    } else {
      var rest, d' := lines[1..], MovedBy(lines[0], d);
      TailIsEncodable(lines, line);
      LineIsCut(lines[0], "", line, d);
      LinesDecode(rest, line + 1, d');
      LinesDecodeFrom(lines, line, d, rest, EncodeLines(rest, d'), d');
    }
  }

  /** Encoding any table with values below 2^62 and decoding it returns it, less a final empty line. */
  lemma MappingsRoundTrip(lines: seq<Line>)
    requires EncodableTable(lines, 0)
    ensures DecodeLines(EncodeLines(lines, START), 0, START) == Ok(WithoutFinalEmptyLine(lines))
  {
    LinesDecode(lines, 0, START);
  }

  /** What follows a segment in its line. */
  predicate EndsSegment(more: string) { more == "" || more[0] == ',' }

  lemma CutText(fields: seq<int>, more: string)
    requires fields != [] && EndsSegment(more)
    ensures var enc := EncodeFields(fields);
            enc != "" && Cut(enc + more, ',') == (enc, if more == "" then "" else more[1..])
  {
    var enc := EncodeFields(fields);
    FieldText(fields);
    if more == "" {
      CutAt(enc, ',', "");
      assert enc + more == enc;
    } else {
      CutAt(enc, ',', more[1..]);
      assert enc + more == enc + [','] + more[1..];
    }
  }

  /** A text that starts with one decodable segment. */
  predicate StartsWith(s: string, enc: string, tail: string, fields: seq<int>) {
    s != "" && enc != "" && Cut(s, ',') == (enc, tail) && FieldCountOk(|fields|)
        && DecodeFields(enc, 0, 0) == Ok(fields)
  }

  lemma SegmentStarts(fields: seq<int>, more: string)
    requires FieldCountOk(|fields|) && EndsSegment(more) && forall i :: 0 <= i < |fields| ==> Abs(fields[i]) < TWO62
    ensures StartsWith(EncodeFields(fields) + more, EncodeFields(fields), if more == "" then "" else more[1..], fields)
  {
    FieldsDecode(fields);
    CutText(fields, more);
  }

  lemma ReadAlike(s: string, t: string, enc: string, enc': string, tail: string, three: seq<int>, one: seq<int>,
      line: nat, genCol: int, d: Deltas)
    requires StartsWith(s, enc, tail, three) && StartsWith(t, enc', tail, one)
    requires |three| == 3 && |one| == 1 && three[0] == one[0]
    ensures DecodeLine(s, line, genCol, d) == DecodeLine(t, line, genCol, d)
  {
    UnfoldSegment(s, line, genCol, d);
    UnfoldSegment(t, line, genCol, d);
    SameColumn(three, one, line, genCol, d);
  }

  lemma SameColumn(three: seq<int>, one: seq<int>, line: nat, genCol: int, d: Deltas)
    requires |three| == 3 && |one| == 1 && three[0] == one[0]
    ensures Resolve(line, genCol, d, three) == Resolve(line, genCol, d, one) && Advance(d, three) == Advance(d, one)
  {
  }

  /**
   Whatever its second and third field, a 3-field segment reads like its column alone, and so does the rest of its
   line.
   */
  lemma ThreeFieldsAreSourceless(c: int, x: int, y: int, more: string, line: nat, genCol: int, d: Deltas)
    requires Abs(c) < TWO62 && Abs(x) < TWO62 && Abs(y) < TWO62 && EndsSegment(more)
    ensures DecodeLine(EncodeFields([c, x, y]) + more, line, genCol, d) ==
            DecodeLine(EncodeFields([c]) + more, line, genCol, d)
  {
    var three, one := [c, x, y], [c];
    var enc, enc', tail := EncodeFields(three), EncodeFields(one), if more == "" then "" else more[1..];
    SegmentStarts(three, more);
    SegmentStarts(one, more);
    ReadAlike(enc + more, enc' + more, enc, enc', tail, three, one, line, genCol, d);
  }

  // ---- what the fields mean ----

  predicate FieldsOk(fields: seq<int>) {
    FieldCountOk(|fields|) && forall i :: 0 <= i < |fields| ==> Abs(fields[i]) < TWO62
  }

  predicate AllFieldsOk(all: seq<seq<int>>) { forall i :: 0 <= i < |all| ==> FieldsOk(all[i]) }

  /** The segments of one line, each given by its fields. */
  function LineOf(all: seq<seq<int>>): string {
    if all == [] then "" else EncodeFields(all[0]) + (if |all| == 1 then "" else [','] + LineOf(all[1..]))
  }

  /** What the fields at place `j` add up to; of the three-field segments only the column counts. */
  function SumAt(all: seq<seq<int>>, j: nat): int {
    if all == [] then 0
    else (if j < |all[0]| && (j == 0 || |all[0]| != 3) then all[0][j] else 0) + SumAt(all[1..], j)
  }

  /** A segment whose values are the given running values plus the sums of the fields up to its own. */
  predicate IsSum(seg: Segment, line: nat, genCol: int, d: Deltas, upto: seq<seq<int>>) {
    && upto != [] && seg.genLine == line && seg.genCol == Wrap64(genCol + SumAt(upto, 0))
    && if |upto[|upto| - 1]| < 4 then seg.srcIdx == -1 && seg.srcLine == 0 && seg.srcCol == 0 && seg.nameIdx == -1
       else && seg.srcIdx == Wrap64(d.srcIdx + SumAt(upto, 1)) && seg.srcLine == Wrap64(d.srcLine + SumAt(upto, 2))
            && seg.srcCol == Wrap64(d.srcCol + SumAt(upto, 3))
            && seg.nameIdx == if |upto[|upto| - 1]| == 5 then Wrap64(d.nameIdx + SumAt(upto, 4)) else -1
  }

  predicate Wrapped(d: Deltas) {
    Wrap64(d.srcIdx) == d.srcIdx && Wrap64(d.srcLine) == d.srcLine && Wrap64(d.srcCol) == d.srcCol
        && Wrap64(d.nameIdx) == d.nameIdx
  }

  lemma WrapTwice(a: int, b: int, c: int)
    ensures Wrap64(Wrap64(a + b) + c) == Wrap64(a + (b + c))
  {
  }

  lemma SumOfOne(fields: seq<int>, j: nat)
    ensures SumAt([fields], j) == if j < |fields| && (j == 0 || |fields| != 3) then fields[j] else 0
  {
    assert SumAt([fields][1..], j) == 0;
  }

  lemma FirstIsSum(fields: seq<int>, line: nat, genCol: int, d: Deltas)
    requires FieldCountOk(|fields|)
    ensures IsSum(Resolve(line, genCol, d, fields), line, genCol, d, [fields])
  {
    SumOfOne(fields, 0);
    SumOfOne(fields, 1);
    SumOfOne(fields, 2);
    SumOfOne(fields, 3);
    SumOfOne(fields, 4);
  }

  /** One value after the first segment: its field is added, or nothing. */
  predicate Moves(v: int, v': int, fields: seq<int>, j: nat) {
    v' == Wrap64(v + SumAt([fields], j))
  }

  lemma SumGrows(v: int, v': int, fields: seq<int>, more: seq<seq<int>>, j: nat)
    requires Moves(v, v', fields, j)
    ensures Wrap64(v' + SumAt(more, j)) == Wrap64(v + SumAt([fields] + more, j))
  {
    SumOfOne(fields, j);
    assert ([fields] + more)[1..] == more;
    WrapTwice(v, SumAt([fields], j), SumAt(more, j));
  }

  predicate AllMove(d: Deltas, d': Deltas, fields: seq<int>) {
    && Moves(d.srcIdx, d'.srcIdx, fields, 1) && Moves(d.srcLine, d'.srcLine, fields, 2)
    && Moves(d.srcCol, d'.srcCol, fields, 3) && Moves(d.nameIdx, d'.nameIdx, fields, 4)
  }

  lemma AdvanceMoves(fields: seq<int>, genCol: int, d: Deltas)
    requires FieldCountOk(|fields|) && Wrapped(d)
    ensures AllMove(d, Advance(d, fields), fields) && Wrapped(Advance(d, fields))
    ensures Moves(genCol, Wrap64(genCol + fields[0]), fields, 0)
  {
    SumOfOne(fields, 0);
    SumOfOne(fields, 1);
    SumOfOne(fields, 2);
    SumOfOne(fields, 3);
    SumOfOne(fields, 4);
  }

  lemma SumsGrow(d: Deltas, d': Deltas, fields: seq<int>, more: seq<seq<int>>)
    requires AllMove(d, d', fields)
    ensures var all := [fields] + more;
            && Wrap64(d'.srcIdx + SumAt(more, 1)) == Wrap64(d.srcIdx + SumAt(all, 1))
            && Wrap64(d'.srcLine + SumAt(more, 2)) == Wrap64(d.srcLine + SumAt(all, 2))
            && Wrap64(d'.srcCol + SumAt(more, 3)) == Wrap64(d.srcCol + SumAt(all, 3))
            && Wrap64(d'.nameIdx + SumAt(more, 4)) == Wrap64(d.nameIdx + SumAt(all, 4))
  {
    SumGrows(d.srcIdx, d'.srcIdx, fields, more, 1);
    SumGrows(d.srcLine, d'.srcLine, fields, more, 2);
    SumGrows(d.srcCol, d'.srcCol, fields, more, 3);
    SumGrows(d.nameIdx, d'.nameIdx, fields, more, 4);
  }

  lemma LaterIsSum(seg: Segment, line: nat, genCol: int, d: Deltas, col: int, d': Deltas, fields: seq<int>,
      more: seq<seq<int>>)
    requires AllMove(d, d', fields) && Moves(genCol, col, fields, 0)
    requires IsSum(seg, line, col, d', more)
    ensures IsSum(seg, line, genCol, d, [fields] + more)
  {
    SumsGrow(d, d', fields, more);
    SumGrows(genCol, col, fields, more, 0);
    var all := [fields] + more;
    assert all[|all| - 1] == more[|more| - 1];
  }

  lemma {:induction false} LineStarts(all: seq<seq<int>>)
    requires all != [] && AllFieldsOk(all)
    ensures StartsWith(LineOf(all), EncodeFields(all[0]), LineOf(all[1..]), all[0])
  {
    assert FieldsOk(all[0]);
    var more := if |all| == 1 then "" else [','] + LineOf(all[1..]);
    SegmentStarts(all[0], more);
  }

  function Resolved(all: seq<seq<int>>, line: nat, genCol: int, d: Deltas): (segs: Line)
    requires AllFieldsOk(all)
    ensures |segs| == |all|
  {
    if all == [] then [] else
    assert FieldsOk(all[0]) && AllFieldsOk(all[1..]);
    [Resolve(line, genCol, d, all[0])] + Resolved(all[1..], line, Wrap64(genCol + all[0][0]), Advance(d, all[0]))
  }

  function MovedOver(all: seq<seq<int>>, d: Deltas): Deltas
    requires AllFieldsOk(all)
  {
    if all == [] then d else
    assert FieldsOk(all[0]) && AllFieldsOk(all[1..]);
    MovedOver(all[1..], Advance(d, all[0]))
  }

  lemma {:induction false} LineResolves(all: seq<seq<int>>, line: nat, genCol: int, d: Deltas)
    requires AllFieldsOk(all)
    ensures DecodeLine(LineOf(all), line, genCol, d) == LineOk(Resolved(all, line, genCol, d), MovedOver(all, d))
    decreases |all|
  {
    if all == [] {
    } else {
      assert FieldsOk(all[0]) && AllFieldsOk(all[1..]);
      var col, d' := Wrap64(genCol + all[0][0]), Advance(d, all[0]);
      LineResolves(all[1..], line, col, d');
      LineStarts(all);
      LineResolvesFrom(LineOf(all), LineOf(all[1..]), all, line, genCol, d, col, d');
    }
  }

  lemma {:induction false} LineResolvesFrom(text: string, tail: string, all: seq<seq<int>>, line: nat, genCol: int,
      d: Deltas, col: int, d': Deltas)
    requires all != [] && AllFieldsOk(all) && StartsWith(text, EncodeFields(all[0]), tail, all[0])
    requires FieldsOk(all[0]) && AllFieldsOk(all[1..]) && col == Wrap64(genCol + all[0][0]) && d' == Advance(d, all[0])
    requires DecodeLine(tail, line, col, d') == LineOk(Resolved(all[1..], line, col, d'), MovedOver(all[1..], d'))
    ensures DecodeLine(text, line, genCol, d) == LineOk(Resolved(all, line, genCol, d), MovedOver(all, d))
  {
    StepFrom(text, EncodeFields(all[0]), tail, all[0], line, genCol, d, Resolved(all[1..], line, col, d'),
             MovedOver(all[1..], d'), Resolved(all, line, genCol, d), MovedOver(all, d));
  }

  lemma {:induction false} StepFrom(s: string, enc: string, tail: string, fields: seq<int>, line: nat, genCol: int,
      d: Deltas, rest: Line, end: Deltas, segs: Line, last: Deltas)
    requires StartsWith(s, enc, tail, fields)
    requires DecodeLine(tail, line, Wrap64(genCol + fields[0]), Advance(d, fields)) == LineOk(rest, end)
    requires segs == [Resolve(line, genCol, d, fields)] + rest && last == end
    ensures DecodeLine(s, line, genCol, d) == LineOk(segs, last)
  {
    LineStep(s, enc, tail, fields, line, genCol, d, rest, end);
  }

  lemma {:induction false} ResolvedIsSum(all: seq<seq<int>>, line: nat, genCol: int, d: Deltas, i: nat)
    requires AllFieldsOk(all) && i < |all| && Wrapped(d)
    ensures IsSum(Resolved(all, line, genCol, d)[i], line, genCol, d, all[..i + 1])
    decreases |all|
  {
    assert FieldsOk(all[0]) && AllFieldsOk(all[1..]);
    if i == 0 {
      FirstIsSum(all[0], line, genCol, d);
      assert all[..1] == [all[0]];
    } else {
      var col, d' := Wrap64(genCol + all[0][0]), Advance(d, all[0]);
      AdvanceMoves(all[0], genCol, d);
      ResolvedIsSum(all[1..], line, col, d', i - 1);
      LaterIsSum(Resolved(all[1..], line, col, d')[i - 1], line, genCol, d, col, d', all[0], all[1..][..i]);
      assert [all[0]] + all[1..][..i] == all[..i + 1];
    }
  }

  /**
   On any line the values of a segment are running sums: of the first fields for the column, which starts at 0 on every
   line, and of the second to fifth for source, source line, source column and name, which go on from line to line.
   */
  lemma {:induction false} SegmentsAreSums(all: seq<seq<int>>, line: nat, d: Deltas, i: nat)
    requires AllFieldsOk(all) && i < |all| && Wrapped(d)
    ensures var r := DecodeLine(LineOf(all), line, 0, d);
            r.LineOk? && |r.segs| == |all| && IsSum(r.segs[i], line, 0, d, all[..i + 1])
  {
    LineResolves(all, line, 0, d);
    ResolvedIsSum(all, line, 0, d, i);
  }

  predicate EndsAtSums(d: Deltas, d': Deltas, all: seq<seq<int>>) {
    && d'.srcIdx == Wrap64(d.srcIdx + SumAt(all, 1)) && d'.srcLine == Wrap64(d.srcLine + SumAt(all, 2))
    && d'.srcCol == Wrap64(d.srcCol + SumAt(all, 3)) && d'.nameIdx == Wrap64(d.nameIdx + SumAt(all, 4))
  }

  /** The values the next line goes on from. */
  lemma {:induction false} LineEndsAtSums(all: seq<seq<int>>, line: nat, d: Deltas)
    requires AllFieldsOk(all) && Wrapped(d)
    ensures var r := DecodeLine(LineOf(all), line, 0, d); r.LineOk? && EndsAtSums(d, r.deltas, all) && Wrapped(r.deltas)
  {
    LineResolves(all, line, 0, d);
    MovedOverIsSum(all, d);
  }

  lemma EndsLater(d: Deltas, d': Deltas, end: Deltas, fields: seq<int>, more: seq<seq<int>>)
    requires AllMove(d, d', fields) && EndsAtSums(d', end, more)
    ensures EndsAtSums(d, end, [fields] + more)
  {
    SumsGrow(d, d', fields, more);
  }

  lemma {:induction false} MovedOverIsSum(all: seq<seq<int>>, d: Deltas)
    requires AllFieldsOk(all) && Wrapped(d)
    ensures EndsAtSums(d, MovedOver(all, d), all) && Wrapped(MovedOver(all, d))
    decreases |all|
  {
    if all == [] {
    } else {
      assert FieldsOk(all[0]) && AllFieldsOk(all[1..]);
      var d' := Advance(d, all[0]);
      AdvanceMoves(all[0], 0, d);
      MovedOverIsSum(all[1..], d');
      EndsLater(d, d', MovedOver(all[1..], d'), all[0], all[1..]);
      assert [all[0]] + all[1..] == all;
    }
  }

  predicate NameLine(segs: Line, line: int) {
    forall seg :: seg in segs ==> seg.genLine == line
  }

  lemma {:induction false} DecodedLine(part: string, line: nat, genCol: int, d: Deltas)
    ensures var r := DecodeLine(part, line, genCol, d);
            r.LineOk? ==> NameLine(r.segs, line)
    decreases |part|
  {
    if part == "" {
    } else {
      var (segStr, rest) := Cut(part, ',');
      if segStr == "" {
        DecodedLine(rest, line, genCol, d);
      } else {
        var fields := DecodeFields(segStr, 0, 0);
        if fields.Ok? && FieldCountOk(|fields.value|) {
          DecodedLine(rest, line, Wrap64(genCol + fields.value[0]), Advance(d, fields.value));
        }
      }
    }
  }

  /** Whatever string was decoded, a segment sits on the line it names. */
  lemma {:induction false} SegmentsNameTheirLine(s: string, line: nat, d: Deltas, i: nat)
    ensures var r := DecodeLines(s, line, d);
            r.Ok? && i < |r.value| ==> NameLine(r.value[i], line + i)
    decreases |s|
  {
    if s == "" {
    } else {
      var (part, rest) := Cut(s, ';');
      DecodedLine(part, line, 0, d);
      var first := DecodeLine(part, line, 0, d);
      if first.LineOk? && i > 0 {
        SegmentsNameTheirLine(rest, line + 1, first.deltas, i - 1);
      }
    }
  }

  // ---- lookup ----

  /** sort.Search on "column past col", over positions lo to hi. */
  function Search(segs: Line, col: int, lo: nat, hi: nat): (i: nat)
    requires lo <= hi <= |segs|
    ensures lo <= i <= hi
    ensures i > lo ==> segs[i - 1].genCol <= col
    ensures i < hi ==> segs[i].genCol > col
    decreases hi - lo
  {
    if lo == hi then lo else
    var mid := (lo + hi) / 2;
    if segs[mid].genCol <= col then Search(segs, col, mid + 1, hi) else Search(segs, col, lo, mid)
  }

  function LookupIn(lines: seq<Line>, line: int, col: int): Option<Segment> {
    if line < 0 || line >= |lines| then None else
    var segs := lines[line];
    var i := Search(segs, col, 0, |segs|);
    if i == 0 then None else Some(segs[i - 1])
  }

  /** The binary search as a loop. */
  method Lookup(lines: seq<Line>, line: int, col: int) returns (r: Option<Segment>)
    ensures r == LookupIn(lines, line, col)
  {
    if line < 0 || line >= |lines| {
      return None;
    }
    var segs := lines[line];
    if |segs| == 0 {
      return None;
    }
    var lo, hi := 0, |segs|;
    while lo < hi
      invariant 0 <= lo <= hi <= |segs|
      invariant Search(segs, col, lo, hi) == Search(segs, col, 0, |segs|)
    {
      var mid := (lo + hi) / 2;
      if segs[mid].genCol <= col {
        lo := mid + 1;
      } else {
        hi := mid;
      }
    }
    r := if lo == 0 then None else Some(segs[lo - 1]);
  }

  /** The linear scan: the last segment at or before the column. */
  function LastAtOrBefore(segs: Line, col: int): Option<Segment> {
    if segs == [] then None
    else if segs[|segs| - 1].genCol <= col then Some(segs[|segs| - 1])
    else LastAtOrBefore(segs[..|segs| - 1], col)
  }

  predicate Ascending(segs: Line) {
    forall i, j :: 0 <= i < j < |segs| ==> segs[i].genCol <= segs[j].genCol
  }

  lemma {:induction false} ScanStopsAt(segs: Line, col: int, i: nat)
    requires i <= |segs| && (forall j :: i <= j < |segs| ==> segs[j].genCol > col)
             && (i > 0 ==> segs[i - 1].genCol <= col)
    ensures LastAtOrBefore(segs, col) == if i == 0 then None else Some(segs[i - 1])
    decreases |segs|
  {
    if i < |segs| {
      ScanStopsAt(segs[..|segs| - 1], col, i);
    }
  }

  /** On a line in column order the binary search finds what a linear scan finds. */
  lemma LookupIsScan(lines: seq<Line>, line: nat, col: int)
    requires line < |lines| && Ascending(lines[line])
    ensures LookupIn(lines, line, col) == LastAtOrBefore(lines[line], col)
  {
    var segs := lines[line];
    var i := Search(segs, col, 0, |segs|);
    forall j | i <= j < |segs| ensures segs[j].genCol > col {
      assert segs[i].genCol > col && segs[i].genCol <= segs[j].genCol;
    }
    ScanStopsAt(segs, col, i);
  }

  /** On any line at all a hit lies at or before the column, and is a segment of that line. */
  lemma HitIsAtOrBefore(lines: seq<Line>, line: int, col: int)
    ensures var r := LookupIn(lines, line, col);
            r.Some? ==> 0 <= line < |lines| && r.value in lines[line] && r.value.genCol <= col
  {
  }
}
