/** The bytes hashed into a release's cache key, and what they do and do not determine. */
module ArtifactKey {
  import opened Wrappers
  import opened Resolve

  datatype Row = Row(dist: string, name: string, sha: string)

  const NUL: char := 0 as char
  const UNIT: char := 0x1f as char
  const RECORD: char := 0x1e as char

  // ---- the order of sort.Slice ----

  /** Go's string order: bytes, a proper prefix first. */
  predicate Before(a: string, b: string) {
    b != "" && (a == "" || a[0] < b[0] || (a[0] == b[0] && Before(a[1..], b[1..])))
  }

  predicate RowBefore(a: Row, b: Row) { if a.name != b.name then Before(a.name, b.name) else Before(a.dist, b.dist) }

  lemma {:induction false} BeforeIsStrict(a: string, b: string)
    ensures !(Before(a, b) && Before(b, a))
    ensures a == b || Before(a, b) || Before(b, a)
    decreases |a|
  {
    if a != "" && b != "" && a[0] == b[0] {
      BeforeIsStrict(a[1..], b[1..]);
      assert a == [a[0]] + a[1..] && b == [b[0]] + b[1..];
    }
  }

  lemma {:induction false} BeforeChains(a: string, b: string, c: string)
    requires Before(a, b) && Before(b, c)
    ensures Before(a, c)
    decreases |a|
  {
    if a != "" && a[0] == b[0] && b[0] == c[0] {
      BeforeChains(a[1..], b[1..], c[1..]);
    }
  }

  predicate SameKey(a: Row, b: Row) { a.name == b.name && a.dist == b.dist }

  lemma RowBeforeIsStrict(a: Row, b: Row)
    ensures !(RowBefore(a, b) && RowBefore(b, a))
    ensures SameKey(a, b) || RowBefore(a, b) || RowBefore(b, a)
    ensures SameKey(a, b) ==> !RowBefore(a, b)
  {
    BeforeIsStrict(a.name, b.name);
    BeforeIsStrict(a.dist, b.dist);
  }

  lemma RowBeforeChains(a: Row, b: Row, c: Row)
    requires RowBefore(a, b) && RowBefore(b, c)
    ensures RowBefore(a, c)
  {
    if a.name == b.name && b.name == c.name {
      BeforeChains(a.dist, b.dist, c.dist);
    } else if a.name != b.name && b.name != c.name {
      BeforeChains(a.name, b.name, c.name);
      BeforeIsStrict(a.name, b.name);
    }
  }

  function Insert(r: Row, rows: seq<Row>): seq<Row> {
    if rows == [] || RowBefore(r, rows[0]) then [r] + rows else [rows[0]] + Insert(r, rows[1..])
  }

  /** The library sort. */
  function Sorted(rows: seq<Row>): seq<Row> { if rows == [] then [] else Insert(rows[0], Sorted(rows[1..])) }

  // ---- the hashed bytes ----

  function RowBytes(r: Row): string { r.dist + [UNIT] + r.name + [UNIT] + r.sha + [RECORD] }

  function RowsBytes(rows: seq<Row>): string {
    if rows == [] then "" else RowsBytes(rows[..|rows| - 1]) + RowBytes(rows[|rows| - 1])
  }

  function RowOf(a: Artifact): Row { Row(a.dist, a.name, a.sha) }

  function RowsOf(arts: seq<Artifact>): seq<Row> { seq(|arts|, i requires 0 <= i < |arts| => RowOf(arts[i])) }

  function Preimage(release: string, rows: seq<Row>): string { release + [NUL] + RowsBytes(Sorted(rows)) }

  function KeyOf(hash: string -> string, release: string, arts: seq<Artifact>): string {
    hash(Preimage(release, RowsOf(arts)))
  }

  method CollectRows(arts: seq<Artifact>) returns (rs: seq<Row>)
    ensures rs == RowsOf(arts)
  {
    rs := [];
    for i := 0 to |arts|
      invariant |rs| == i && forall k :: 0 <= k < i ==> rs[k] == RowOf(arts[k])
    {
      rs := rs + [Row(arts[i].dist, arts[i].name, arts[i].sha)];
    }
  }

  method WriteRows(head: string, rs: seq<Row>) returns (h: string)
    ensures h == head + RowsBytes(rs)
  {
    h := head;
    for i := 0 to |rs|
      invariant h == head + RowsBytes(rs[..i])
    {
      assert rs[..i + 1][..i] == rs[..i];
      ghost var before := h;
      h := h + rs[i].dist + [UNIT] + rs[i].name + [UNIT] + rs[i].sha + [RECORD];
      assert h == before + RowBytes(rs[i]);
      assert h == head + (RowsBytes(rs[..i]) + RowBytes(rs[i]));
    }
    assert rs[..|rs|] == rs;
  }

  method ArtifactSetKey(hash: string -> string, release: string, arts: seq<Artifact>) returns (key: string)
    ensures key == KeyOf(hash, release, arts)
  {
    var rs := CollectRows(arts);
    var h := WriteRows(release + [NUL], Sorted(rs));
    key := hash(h);
  }

  // ---- the order of the rows is forgotten ----

  predicate KeyFree(r: Row, rows: seq<Row>) { forall q :: q in rows ==> !SameKey(r, q) }

  /** UNIQUE (project_id, release, dist, name). */
  predicate UniqueKeys(rows: seq<Row>) { rows == [] || (KeyFree(rows[0], rows[1..]) && UniqueKeys(rows[1..])) }

  predicate Leads(r: Row, rows: seq<Row>) { forall q :: q in rows ==> RowBefore(r, q) }

  predicate Ascending(rows: seq<Row>) { rows == [] || (Leads(rows[0], rows[1..]) && Ascending(rows[1..])) }

  lemma {:induction false} InsertAdds(r: Row, rows: seq<Row>)
    ensures Elements(Insert(r, rows)) == Elements(rows) + {r}
  {
    if rows != [] && !RowBefore(r, rows[0]) {
      InsertAdds(r, rows[1..]);
      var rest := Insert(r, rows[1..]);
      assert rows == [rows[0]] + rows[1..];
      assert Elements([rows[0]] + rest) == {rows[0]} + Elements(rest);
      assert Elements([rows[0]] + rows[1..]) == {rows[0]} + Elements(rows[1..]);
    } else {
      assert Elements([r] + rows) == {r} + Elements(rows);
    }
  }

  lemma AscendingCons(r: Row, rows: seq<Row>)
    requires Ascending(rows) && Leads(r, rows)
    ensures Ascending([r] + rows)
  {
    assert ([r] + rows)[1..] == rows;
  }

  lemma {:induction false} InsertKeepsOrder(r: Row, rows: seq<Row>)
    requires Ascending(rows) && KeyFree(r, rows)
    ensures Ascending(Insert(r, rows))
  {
    if rows == [] {
    } else if RowBefore(r, rows[0]) {
      forall q | q in rows ensures RowBefore(r, q) {
        if q != rows[0] {
          assert q in rows[1..];
          RowBeforeChains(r, rows[0], q);
        }
      }
      AscendingCons(r, rows);
    } else {
      var rest := Insert(r, rows[1..]);
      InsertKeepsOrder(r, rows[1..]);
      InsertAdds(r, rows[1..]);
      assert rows[0] in rows;
      RowBeforeIsStrict(r, rows[0]);
      forall q | q in rest ensures RowBefore(rows[0], q) {
        assert q in Elements(rest);
      }
      AscendingCons(rows[0], rest);
    }
  }

  lemma {:induction false} SortedIsAscending(rows: seq<Row>)
    requires UniqueKeys(rows)
    ensures Elements(Sorted(rows)) == Elements(rows) && Ascending(Sorted(rows))
  {
    if rows == [] {
    } else {
      SortedIsAscending(rows[1..]);
      forall q | q in Sorted(rows[1..]) ensures !SameKey(rows[0], q) {
        assert q in Elements(Sorted(rows[1..]));
      }
      InsertAdds(rows[0], Sorted(rows[1..]));
      InsertKeepsOrder(rows[0], Sorted(rows[1..]));
      assert rows == [rows[0]] + rows[1..];
    }
  }

  lemma NoElements(rows: seq<Row>)
    ensures Elements(rows) == {} <==> rows == []
  {
    if rows != [] {
      assert rows[0] in Elements(rows);
    }
  }

  lemma {:induction false} AscendingIsDetermined(a: seq<Row>, b: seq<Row>)
    requires Ascending(a) && Ascending(b) && Elements(a) == Elements(b)
    ensures a == b
  {
    if a == [] || b == [] {
      NoElements(a);
      NoElements(b);
    } else {
      SameHead(a, b);
      SameTail(a, b);
      AscendingIsDetermined(a[1..], b[1..]);
    }
  }

  lemma SameHead(a: seq<Row>, b: seq<Row>)
    requires a != [] && b != [] && Ascending(a) && Ascending(b) && Elements(a) == Elements(b)
    ensures a[0] == b[0]
  {
    assert a[0] in Elements(b) && b[0] in Elements(a);
    assert a == [a[0]] + a[1..] && b == [b[0]] + b[1..];
    RowBeforeIsStrict(a[0], b[0]);
  }

  lemma SameTail(a: seq<Row>, b: seq<Row>)
    requires a != [] && b != [] && Ascending(a) && Ascending(b) && Elements(a) == Elements(b) && a[0] == b[0]
    ensures Elements(a[1..]) == Elements(b[1..])
  {
    RowBeforeIsStrict(a[0], a[0]);
    assert a == [a[0]] + a[1..] && b == [b[0]] + b[1..];
    assert Elements(a[1..]) == Elements(a) - {a[0]};
    assert Elements(b[1..]) == Elements(b) - {b[0]};
  }

  // ---- the bytes give the rows back ----

  /** No 0x1f in dist or name. */
  predicate Plain(dist: string, name: string) { 0x1f as char !in dist && 0x1f as char !in name }

  predicate RowFree(r: Row) { Plain(r.dist, r.name) && RECORD !in r.sha }

  predicate AllFree(rows: seq<Row>) { forall r :: r in rows ==> RowFree(r) }

  /** Two strings without the separator, each followed by it. */
  lemma {:induction false} CutAgrees(a: string, x: string, b: string, y: string, sep: char)
    requires sep !in a && sep !in b && a + [sep] + x == b + [sep] + y
    ensures a == b && x == y
    decreases |a|
  {
    var s, t := a + [sep] + x, b + [sep] + y;
    if a == "" || b == "" {
      assert s[0] == t[0];
      assert a == "" && b == "";
      assert x == s[1..] && y == t[1..];
    } else {
      assert s[0] == a[0] && t[0] == b[0];
      assert a[1..] + [sep] + x == s[1..] && b[1..] + [sep] + y == t[1..];
      CutAgrees(a[1..], x, b[1..], y, sep);
      assert a == [a[0]] + a[1..] && b == [b[0]] + b[1..];
    }
  }

  lemma RowBytesAgree(a: Row, x: string, b: Row, y: string)
    requires RowFree(a) && RowFree(b) && RowBytes(a) + x == RowBytes(b) + y
    ensures a == b && x == y
  {
    var a2, b2 := a.name + [UNIT] + a.sha + [RECORD] + x, b.name + [UNIT] + b.sha + [RECORD] + y;
    var a3, b3 := a.sha + [RECORD] + x, b.sha + [RECORD] + y;
    assert RowBytes(a) + x == a.dist + [UNIT] + a2 && RowBytes(b) + y == b.dist + [UNIT] + b2;
    CutAgrees(a.dist, a2, b.dist, b2, UNIT);
    assert a2 == a.name + [UNIT] + a3 && b2 == b.name + [UNIT] + b3;
    CutAgrees(a.name, a3, b.name, b3, UNIT);
    CutAgrees(a.sha, x, b.sha, y, RECORD);
  }

  lemma {:induction false} RowsBytesCons(rows: seq<Row>)
    requires rows != []
    ensures RowsBytes(rows) == RowBytes(rows[0]) + RowsBytes(rows[1..])
  {
    if |rows| > 1 {
      var init := rows[..|rows| - 1];
      RowsBytesCons(init);
      assert rows[1..][..|rows| - 2] == init[1..];
    }
  }

  lemma {:induction false} RowsBytesAgree(a: seq<Row>, b: seq<Row>)
    requires AllFree(a) && AllFree(b) && RowsBytes(a) == RowsBytes(b)
    ensures a == b
  {
    if a == [] {
      if b != [] {
        RowsBytesCons(b);
      }
    } else if b == [] {
      RowsBytesCons(a);
    } else {
      RowsBytesCons(a);
      RowsBytesCons(b);
      RowBytesAgree(a[0], RowsBytes(a[1..]), b[0], RowsBytes(b[1..]));
      RowsBytesAgree(a[1..], b[1..]);
      assert a == [a[0]] + a[1..] && b == [b[0]] + b[1..];
    }
  }

  ghost predicate CollisionFree(hash: string -> string) { forall a, b :: hash(a) == hash(b) ==> a == b }

  /**
   For one release, names and dists without 0x1f: two artifact lists get the same key exactly when
   they hold the same (name, dist, sha) rows, in whatever order.
   */
  lemma SameKeyExactlyWhenSameRows(hash: string -> string, release: string, a: seq<Artifact>, b: seq<Artifact>)
    requires CollisionFree(hash)
    requires UniqueKeys(RowsOf(a)) && UniqueKeys(RowsOf(b)) && AllFree(RowsOf(a)) && AllFree(RowsOf(b))
    ensures KeyOf(hash, release, a) == KeyOf(hash, release, b) <==> Elements(RowsOf(a)) == Elements(RowsOf(b))
  {
    var ra, rb := RowsOf(a), RowsOf(b);
    SortedIsAscending(ra);
    SortedIsAscending(rb);
    if Elements(ra) == Elements(rb) {
      AscendingIsDetermined(Sorted(ra), Sorted(rb));
    }
    if hash(Preimage(release, ra)) == hash(Preimage(release, rb)) {
      var head := release + [NUL];
      assert RowsBytes(Sorted(ra)) == Preimage(release, ra)[|head|..];
      assert RowsBytes(Sorted(rb)) == Preimage(release, rb)[|head|..];
      assert forall r :: r in Sorted(ra) ==> r in Elements(ra);
      assert forall r :: r in Sorted(rb) ==> r in Elements(rb);
      RowsBytesAgree(Sorted(ra), Sorted(rb));
    }
  }

  /** Releases without NUL never share a key, whatever their artifacts. */
  lemma SameKeySameRelease(hash: string -> string, release: string, other: string, a: seq<Artifact>, b: seq<Artifact>)
    requires CollisionFree(hash) && NUL !in release && NUL !in other
    requires KeyOf(hash, release, a) == KeyOf(hash, other, b)
    ensures release == other
  {
    CutAgrees(release, RowsBytes(Sorted(RowsOf(a))), other, RowsBytes(Sorted(RowsOf(b))), NUL);
  }

  // ---- what a 0x1f in a name or dist does ----

  lemma OneRow(a: Artifact)
    ensures RowsOf([a]) == [RowOf(a)] && RowsBytes(Sorted([RowOf(a)])) == RowBytes(RowOf(a))
  {
    assert [RowOf(a)][1..] == [];
    assert Sorted([RowOf(a)]) == [RowOf(a)];
    assert [RowOf(a)][..0] == [];
  }

  function ListBytes(arts: seq<Artifact>): string { RowsBytes(Sorted(RowsOf(arts))) }

  lemma SameKeySameBytes(hash: string -> string, release: string, a: seq<Artifact>, b: seq<Artifact>)
    requires CollisionFree(hash)
    ensures KeyOf(hash, release, a) == KeyOf(hash, release, b) <==> ListBytes(a) == ListBytes(b)
  {
    var head := release + [NUL];
    assert ListBytes(a) == Preimage(release, RowsOf(a))[|head|..];
    assert ListBytes(b) == Preimage(release, RowsOf(b))[|head|..];
  }

  /** The 0x1f bytes of a row tell how often it can be cut into columns. */
  function Units(s: string): nat { if s == "" then 0 else (if s[0] == UNIT then 1 else 0) + Units(s[1..]) }

  lemma {:induction false} UnitsAdd(s: string, t: string)
    ensures Units(s + t) == Units(s) + Units(t)
  {
    if s == "" {
      assert s + t == t;
    } else {
      UnitsAdd(s[1..], t);
      assert (s + t)[1..] == s[1..] + t;
    }
  }

  lemma {:induction false} NoUnits(s: string)
    ensures Units(s) == 0 <==> UNIT !in s
  {
    if s == "" {
    } else {
      NoUnits(s[1..]);
      assert s == [s[0]] + s[1..];
    }
  }

  lemma RowUnits(r: Row)
    ensures Units(RowBytes(r)) == 2 + Units(r.dist) + Units(r.name) + Units(r.sha)
  {
    UnitsAdd(r.dist + [UNIT] + r.name + [UNIT] + r.sha, [RECORD]);
    UnitsAdd(r.dist + [UNIT] + r.name + [UNIT], r.sha);
    UnitsAdd(r.dist + [UNIT] + r.name, [UNIT]);
    UnitsAdd(r.dist + [UNIT], r.name);
    UnitsAdd(r.dist, [UNIT]);
    assert [UNIT][1..] == "" && [RECORD][1..] == "";
  }

  lemma CutApart(s: string) returns (x: string, y: string)
    requires UNIT in s
    ensures s == x + [UNIT] + y
  {
    var i :| 0 <= i < |s| && s[i] == UNIT;
    x, y := s[..i], s[i + 1..];
  }

  lemma MovedToName(x: string, y: string, name: string, sha: string)
    ensures RowBytes(Row(x, y + [UNIT] + name, sha)) == RowBytes(Row(x + [UNIT] + y, name, sha))
  {
    assert x + [UNIT] + (y + [UNIT] + name) == x + [UNIT] + y + [UNIT] + name;
  }

  /** A row that holds 0x1f in dist or name can be cut elsewhere. */
  lemma Recut(a: Artifact) returns (b: Artifact)
    requires !Plain(a.dist, a.name)
    ensures b.sha == a.sha && RowOf(b) != RowOf(a) && RowBytes(RowOf(b)) == RowBytes(RowOf(a))
  {
    if UNIT in a.dist {
      var x, y := CutApart(a.dist);
      b := a.(dist := x, name := y + [UNIT] + a.name);
      MovedToName(x, y, a.name, a.sha);
    } else {
      var x, y := CutApart(a.name);
      b := a.(dist := a.dist + [UNIT] + x, name := y);
      MovedToName(a.dist, x, y, a.sha);
    }
    assert |b.dist| != |a.dist|;
  }

  /** The same bytes hold as many 0x1f. */
  lemma PlainPartner(a: Row, b: Row)
    requires Plain(a.dist, a.name) && UNIT !in a.sha && RowBytes(a) == RowBytes(b)
    ensures Plain(b.dist, b.name)
  {
    RowUnits(a);
    RowUnits(b);
    NoUnits(a.dist);
    NoUnits(a.name);
    NoUnits(a.sha);
    NoUnits(b.dist);
    NoUnits(b.name);
  }

  lemma PlainRowIsItsOwn(a: Row, b: Row)
    requires Plain(a.dist, a.name) && UNIT !in a.sha && RowBytes(a) == RowBytes(b)
    ensures a == b
  {
    PlainPartner(a, b);
    var a1, b1 := a.sha + [RECORD], b.sha + [RECORD];
    var a2, b2 := a.name + [UNIT] + a1, b.name + [UNIT] + b1;
    assert RowBytes(a) == a.dist + [UNIT] + a2 && RowBytes(b) == b.dist + [UNIT] + b2;
    CutAgrees(a.dist, a2, b.dist, b2, UNIT);
    CutAgrees(a.name, a1, b.name, b1, UNIT);
    assert a.sha == a1[..|a.sha|] && b.sha == b1[..|b.sha|];
  }

  lemma {:induction false} InsertLength(r: Row, rows: seq<Row>)
    ensures |Insert(r, rows)| == |rows| + 1
  {
    if rows != [] && !RowBefore(r, rows[0]) {
      InsertLength(r, rows[1..]);
    }
  }

  lemma {:induction false} SortedLength(rows: seq<Row>)
    ensures |Sorted(rows)| == |rows|
  {
    if rows == [] {
    } else {
      SortedLength(rows[1..]);
      InsertLength(rows[0], Sorted(rows[1..]));
    }
  }

  lemma {:induction false} RowsUnits(rows: seq<Row>)
    ensures Units(RowsBytes(rows)) >= 2 * |rows|
  {
    if rows == [] {
    } else {
      var init, last := rows[..|rows| - 1], rows[|rows| - 1];
      RowsUnits(init);
      UnitsAdd(RowsBytes(init), RowBytes(last));
      RowUnits(last);
    }
  }

  /** A single plain row shares its bytes with no list of other rows. */
  lemma PlainListIsItsOwn(a: Artifact, b: seq<Artifact>)
    requires Plain(a.dist, a.name) && UNIT !in a.sha && ListBytes([a]) == ListBytes(b)
    ensures RowsOf(b) == RowsOf([a])
  {
    OneRow(a);
    RowUnits(RowOf(a));
    NoUnits(a.dist);
    NoUnits(a.name);
    NoUnits(a.sha);
    RowsUnits(Sorted(RowsOf(b)));
    SortedLength(RowsOf(b));
    assert RowsOf([]) == [] && Sorted([]) == [];
    assert RowBytes(RowOf(a)) != "" && ListBytes([]) == "";
    assert b == [b[0]];
    OneRow(b[0]);
    PlainRowIsItsOwn(RowOf(a), RowOf(b[0]));
  }

  lemma RowOfThree(d: string, n: string, u: string, s: string)
    ensures d + [UNIT] + (n + [UNIT] + u) + [UNIT] + s + [RECORD] ==
            d + [UNIT] + n + [UNIT] + (u + [UNIT] + s + [RECORD])
  {
  }

  lemma RowJoins(first: Row, between: string, last: Row)
    ensures var name := first.name + [UNIT] + (first.sha + [RECORD] + between + last.dist + [UNIT] + last.name);
            RowBytes(Row(first.dist, name, last.sha)) == RowBytes(first) + between + RowBytes(last)
  {
    var u := first.sha + [RECORD] + between + last.dist + [UNIT] + last.name;
    RowOfThree(first.dist, first.name, u, last.sha);
    assert u + [UNIT] + last.sha + [RECORD] == first.sha + [RECORD] + between + RowBytes(last);
  }

  /** Two or more rows read like one: the first row's dist, the last one's sha, and all between as the name. */
  lemma {:induction false} ManyRowsAreOne(rows: seq<Row>) returns (b: Row)
    requires |rows| > 1
    ensures RowBytes(b) == RowsBytes(rows) && |b.name| > |rows[0].name|
    ensures b.dist == rows[0].dist && b.sha == rows[|rows| - 1].sha
  {
    var init, first, last := rows[..|rows| - 1], rows[0], rows[|rows| - 1];
    var between := RowsBytes(init[1..]);
    RowsBytesCons(init);
    RowJoins(first, between, last);
    var name := first.name + [UNIT] + (first.sha + [RECORD] + between + last.dist + [UNIT] + last.name);
    b := Row(first.dist, name, last.sha);
  }

  lemma {:induction false} SortedElements(rows: seq<Row>)
    ensures Elements(Sorted(rows)) == Elements(rows)
  {
    if rows == [] {
    } else {
      SortedElements(rows[1..]);
      InsertAdds(rows[0], Sorted(rows[1..]));
      assert rows == [rows[0]] + rows[1..];
    }
  }

  /** What a list of artifacts can be told apart by: nothing at all, or one artifact without 0x1f in name and dist. */
  predicate OwnKey(arts: seq<Artifact>) { arts == [] || (|arts| == 1 && Plain(arts[0].dist, arts[0].name)) }

  lemma OneElement(a: Artifact)
    ensures Elements(RowsOf([a])) == {RowOf(a)}
  {
    assert RowsOf([a]) == [RowOf(a)];
  }

  /** The single artifact that shares the bytes of a list that has none of its own. */
  lemma {:induction false} Partner(arts: seq<Artifact>) returns (b: Artifact)
    requires !OwnKey(arts)
    ensures ListBytes([b]) == ListBytes(arts) && Elements(RowsOf([b])) != Elements(RowsOf(arts))
  {
    if |arts| == 1 {
      assert arts == [arts[0]];
      OneRow(arts[0]);
      b := Recut(arts[0]);
      OneRow(b);
      OneElement(b);
      OneElement(arts[0]);
    } else {
      var sorted := Sorted(RowsOf(arts));
      SortedLength(RowsOf(arts));
      SortedElements(RowsOf(arts));
      var row := ManyRowsAreOne(sorted);
      b := Artifact(row.name, row.dist, row.sha, "", "", "");
      OneRow(b);
      OneElement(b);
      assert sorted[0] in Elements(sorted) && sorted[0] != RowOf(b);
    }
  }

  /**
   For every list of artifacts with hex shas: no list of other rows shares its key exactly when it is empty or a single
   artifact whose name and dist hold no 0x1f. Otherwise a single artifact shares it.
   */
  lemma {:induction false} KeyIsItsOwnExactlyWhen(hash: string -> string, release: string, a: seq<Artifact>)
    requires CollisionFree(hash) && forall x :: x in a ==> UNIT !in x.sha
    ensures (forall b :: KeyOf(hash, release, a) == KeyOf(hash, release, b) ==>
            Elements(RowsOf(a)) == Elements(RowsOf(b)))
            <==> OwnKey(a)
    ensures !OwnKey(a) ==>
              exists b :: KeyOf(hash, release, a) == KeyOf(hash, release, [b])
                  && Elements(RowsOf([b])) != Elements(RowsOf(a))
  {
    if OwnKey(a) {
      forall b | KeyOf(hash, release, a) == KeyOf(hash, release, b) ensures Elements(RowsOf(a)) == Elements(RowsOf(b)) {
        SameKeySameBytes(hash, release, a, b);
        if a == [] {
          NoRowsNoBytes(b);
        } else {
          assert a == [a[0]] && a[0] in a;
          PlainListIsItsOwn(a[0], b);
        }
      }
    } else {
      var b := Partner(a);
      SameKeySameBytes(hash, release, a, [b]);
    }
  }

  lemma NoRowsNoBytes(b: seq<Artifact>)
    requires ListBytes([]) == ListBytes(b)
    ensures RowsOf(b) == []
  {
    RowsUnits(Sorted(RowsOf(b)));
    SortedLength(RowsOf(b));
    assert Sorted([]) == [] && RowsOf([]) == [];
  }
}
