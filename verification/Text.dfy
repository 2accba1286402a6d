/** The string operations of Go's standard library that the other modules share, on ASCII. */
module Text {
  /** strings.Split by one separator character. */
  function Split(s: string, sep: char): (parts: seq<string>)
    ensures |parts| > 0
  {
    if s == "" then [""] else
    var rest := Split(s[1..], sep);
    if s[0] == sep then [""] + rest else [[s[0]] + rest[0]] + rest[1..]
  }

  /** strings.Join by one separator character. */
  function Join(parts: seq<string>, sep: char): string {
    if parts == [] then "" else if |parts| == 1 then parts[0] else parts[0] + [sep] + Join(parts[1..], sep)
  }

  /** Joining with one more character in front of the first part, or one more empty part. */
  lemma {:induction false} JoinGrows(c: char, rest: seq<string>, sep: char)
    requires rest != []
    ensures Join([""] + rest, sep) == [sep] + Join(rest, sep)
    ensures Join([[c] + rest[0]] + rest[1..], sep) == [c] + Join(rest, sep)
  {
    var parts := [[c] + rest[0]] + rest[1..];
    assert ([""] + rest)[1..] == rest && parts[1..] == rest[1..];
    if |rest| > 1 {
      assert ([c] + rest[0]) + [sep] + Join(rest[1..], sep) == [c] + Join(rest, sep);
    }
  }

  lemma {:induction false} JoinOfSplit(s: string, sep: char)
    ensures Join(Split(s, sep), sep) == s
    ensures forall p :: p in Split(s, sep) ==> sep !in p
  {
    if s == "" {
    } else {
      var rest := Split(s[1..], sep);
      JoinOfSplit(s[1..], sep);
      JoinGrows(s[0], rest, sep);
      PartsAreFree(s, sep);
      assert s == [s[0]] + s[1..];
    }
  }

  lemma {:induction false} PartsAreFree(s: string, sep: char)
    ensures forall p :: p in Split(s, sep) ==> sep !in p
  {
    if s == "" {
    } else {
      PartsAreFree(s[1..], sep);
      var rest := Split(s[1..], sep);
      assert rest[0] in rest;
    }
  }

  /** Splitting around a separator splits the two sides. */
  lemma {:induction false} SplitAt(a: string, b: string, sep: char)
    ensures Split(a + [sep] + b, sep) == Split(a, sep) + Split(b, sep)
  {
    var s := a + [sep] + b;
    if a == "" {
      assert s[1..] == b;
    } else {
      assert s[1..] == a[1..] + [sep] + b;
      SplitAt(a[1..], b, sep);
    }
  }

  /** The parts, each cut at its separators. */
  function Pieces(parts: seq<string>, sep: char): seq<string> {
    if parts == [] then [] else Split(parts[0], sep) + Pieces(parts[1..], sep)
  }

  lemma {:induction false} PiecesOfJoin(parts: seq<string>, sep: char)
    requires parts != []
    ensures Split(Join(parts, sep), sep) == Pieces(parts, sep)
  {
    if |parts| == 1 {
      assert Pieces(parts[1..], sep) == [];
    } else {
      PiecesOfJoin(parts[1..], sep);
      SplitAt(parts[0], Join(parts[1..], sep), sep);
    }
  }

  /** Two joined lists read the same exactly when their parts fall into the same pieces. */
  lemma {:induction false} JoinsAgreeExactlyWhen(a: seq<string>, b: seq<string>, sep: char)
    requires a != [] && b != []
    ensures Join(a, sep) == Join(b, sep) <==> Pieces(a, sep) == Pieces(b, sep)
  {
    PiecesOfJoin(a, sep);
    PiecesOfJoin(b, sep);
    JoinOfSplit(Join(a, sep), sep);
    JoinOfSplit(Join(b, sep), sep);
  }

  lemma {:induction false} SplitWhole(part: string, sep: char)
    requires sep !in part
    ensures Split(part, sep) == [part]
  {
    if part == "" {
    } else {
      SplitWhole(part[1..], sep);
      assert part == [part[0]] + part[1..];
    }
  }

  lemma {:induction false} PiecesOfWhole(parts: seq<string>, sep: char)
    requires forall p :: p in parts ==> sep !in p
    ensures Pieces(parts, sep) == parts
  {
    if parts == [] {
    } else {
      assert parts[0] in parts && parts == [parts[0]] + parts[1..];
      SplitWhole(parts[0], sep);
      PiecesOfWhole(parts[1..], sep);
    }
  }

  lemma {:induction false} SplitOfJoin(parts: seq<string>, sep: char)
    requires parts != [] && forall p :: p in parts ==> sep !in p
    ensures Split(Join(parts, sep), sep) == parts
  {
    PiecesOfJoin(parts, sep);
    PiecesOfWhole(parts, sep);
  }

  function Lower(c: char): char { if 'A' <= c <= 'Z' then (c as int + 32) as char else c }

  function ToLower(s: string): string { seq(|s|, i requires 0 <= i < |s| => Lower(s[i])) }

  predicate HasPrefix(s: string, p: string) { |p| <= |s| && s[..|p|] == p }

  function IsSpace(c: char): bool { c == ' ' || '\t' <= c <= '\r' }

  function TrimLeft(s: string): string { if s != "" && IsSpace(s[0]) then TrimLeft(s[1..]) else s }

  function TrimRight(s: string): string { if s != "" && IsSpace(s[|s| - 1]) then TrimRight(s[..|s| - 1]) else s }

  /** The position of the first `b`, -1 when there is none. */
  function IndexByte(s: string, b: char): (i: int)
    ensures -1 <= i < |s|
    ensures i >= 0 ==> s[i] == b
    ensures forall j :: 0 <= j < (if i >= 0 then i else |s|) ==> s[j] != b
  {
    if s == "" then -1 else if s[0] == b then 0 else
    var i := IndexByte(s[1..], b);
    if i < 0 then -1 else i + 1
  }

  /** The part before the first '?' or '#'. */
  function BeforeQuery(s: string): string {
    if s == "" || s[0] == '?' || s[0] == '#' then "" else [s[0]] + BeforeQuery(s[1..])
  }

  /** No part of a query or fragment is left. */
  lemma {:induction false} QueryIsGone(s: string)
    ensures '?' !in BeforeQuery(s) && '#' !in BeforeQuery(s) && BeforeQuery(s) <= s
    ensures |BeforeQuery(s)| < |s| ==> s[|BeforeQuery(s)|] == '?' || s[|BeforeQuery(s)|] == '#'
  {
    if s != "" && s[0] != '?' && s[0] != '#' {
      QueryIsGone(s[1..]);
      assert s == [s[0]] + s[1..];
    }
  }

  /** The position of the first `p` in `s`, -1 when there is none. */
  function Index(s: string, p: string): int
    decreases |s|
  {
    if HasPrefix(s, p) then 0 else if s == "" then -1 else
    var i := Index(s[1..], p);
    if i < 0 then -1 else i + 1
  }

  lemma {:induction false} IndexBounds(s: string, p: string)
    ensures Index(s, p) == -1 || (0 <= Index(s, p) && Index(s, p) + |p| <= |s|)
    decreases |s|
  {
    if !HasPrefix(s, p) && s != "" {
      IndexBounds(s[1..], p);
    }
  }
}
