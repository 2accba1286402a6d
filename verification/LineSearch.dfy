/** On which lines the binary search of Lookup finds what a linear scan finds. */
module LineSearch {
  import opened Wrappers
  import opened SourceMap

  /** One past the last position in lo .. hi at or before the column, lo when there is none. */
  function Scan(segs: Line, col: int, lo: nat, hi: nat): (i: nat)
    requires lo <= hi <= |segs|
    ensures lo <= i <= hi
    ensures i > lo ==> segs[i - 1].genCol <= col
    ensures forall j :: i <= j < hi ==> segs[j].genCol > col
  {
    if lo == hi || segs[hi - 1].genCol <= col then hi else Scan(segs, col, lo, hi - 1)
  }

  /** Columns from `from` on and below `to`; None is no bound. */
  predicate Within(col: int, from: Option<int>, to: Option<int>) {
    (from.Some? ==> from.value <= col) && (to.Some? ==> col < to.value)
  }

  function Lower(to: Option<int>, c: int): Option<int> { if to.Some? && to.value < c then to else Some(c) }

  function Higher(from: Option<int>, c: int): Option<int> { if from.Some? && from.value > c then from else Some(c) }

  /** Some column in the bounds is at or past `c`. */
  predicate Reaches(c: int, from: Option<int>, to: Option<int>) {
    to.Some? ==> c < to.value && (from.Some? ==> from.value < to.value)
  }

  /** No segment right of the midpoint is at or before a column of the bounds that turns left there. */
  predicate NothingBeyond(segs: Line, mid: nat, hi: nat, from: Option<int>, to: Option<int>)
    requires mid < hi <= |segs|
  {
    forall j :: mid < j < hi ==> !Reaches(segs[j].genCol, from, Lower(to, segs[mid].genCol))
  }

  /**
   The columns in the bounds are those that lead the search to this range. Those that turn left at the
   midpoint are past no segment on its right, and the same holds in both halves.
   */
  predicate Searchable(segs: Line, lo: nat, hi: nat, from: Option<int>, to: Option<int>)
    requires lo <= hi <= |segs|
    decreases hi - lo
  {
    lo == hi ||
    var mid := (lo + hi) / 2;
    var c := segs[mid].genCol;
    && NothingBeyond(segs, mid, hi, from, to)
    && Searchable(segs, lo, mid, from, Lower(to, c))
    && Searchable(segs, mid + 1, hi, Higher(from, c), to)
  }

  /** Search and scan agree on every column in the bounds. */
  ghost predicate Agree(segs: Line, lo: nat, hi: nat, from: Option<int>, to: Option<int>)
    requires lo <= hi <= |segs|
  {
    forall col: int :: Within(col, from, to) ==> Search(segs, col, lo, hi) == Scan(segs, col, lo, hi)
  }

  /** A column at the midpoint or past it. */
  lemma TurnsRight(segs: Line, col: int, lo: nat, hi: nat)
    requires lo < hi <= |segs| && segs[(lo + hi) / 2].genCol <= col
    ensures var mid := (lo + hi) / 2;
            Search(segs, col, lo, hi) == Search(segs, col, mid + 1, hi)
                && Scan(segs, col, lo, hi) == Scan(segs, col, mid + 1, hi)
  {
  }

  /** Both conditions on a scan's answer fix it. */
  lemma ScanIs(segs: Line, col: int, lo: nat, hi: nat, i: nat)
    requires lo <= i <= hi <= |segs| && (i > lo ==> segs[i - 1].genCol <= col)
    requires forall j :: i <= j < hi ==> segs[j].genCol > col
    ensures Scan(segs, col, lo, hi) == i
  {
  }

  /** A column before the midpoint that is past nothing on its right. */
  lemma TurnsLeft(segs: Line, col: int, lo: nat, hi: nat)
    requires lo < hi <= |segs| && forall j :: (lo + hi) / 2 <= j < hi ==> segs[j].genCol > col
    ensures var mid := (lo + hi) / 2;
            Search(segs, col, lo, hi) == Search(segs, col, lo, mid)
                && Scan(segs, col, lo, hi) == Scan(segs, col, lo, mid)
  {
    ScanIs(segs, col, lo, hi, Scan(segs, col, lo, (lo + hi) / 2));
  }

  /**
   A search that turns left misses what the column is past on the right: if it agrees with the scan, that is nothing.
   */
  lemma NothingMissed(segs: Line, col: int, lo: nat, hi: nat, j: nat)
    requires lo < hi <= |segs| && segs[(lo + hi) / 2].genCol > col && (lo + hi) / 2 <= j < hi
    requires Search(segs, col, lo, hi) == Scan(segs, col, lo, hi)
    ensures segs[j].genCol > col
  {
    assert Search(segs, col, lo, hi) <= (lo + hi) / 2;
  }

  lemma {:induction false} AgreeOnTheRight(segs: Line, lo: nat, hi: nat, from: Option<int>, to: Option<int>)
    requires lo < hi <= |segs| && Agree(segs, lo, hi, from, to)
    ensures var mid := (lo + hi) / 2; Agree(segs, mid + 1, hi, Higher(from, segs[mid].genCol), to)
  {
    var mid := (lo + hi) / 2;
    forall col: int | Within(col, Higher(from, segs[mid].genCol), to)
      ensures Search(segs, col, mid + 1, hi) == Scan(segs, col, mid + 1, hi)
    {
      TurnsRight(segs, col, lo, hi);
      assert Within(col, from, to);
    }
  }

  lemma {:induction false} NothingReached(segs: Line, lo: nat, hi: nat, from: Option<int>, to: Option<int>)
    requires lo < hi <= |segs| && Agree(segs, lo, hi, from, to)
    ensures NothingBeyond(segs, (lo + hi) / 2, hi, from, to)
  {
    var mid := (lo + hi) / 2;
    forall j | mid < j < hi ensures !Reaches(segs[j].genCol, from, Lower(to, segs[mid].genCol)) {
      var c := segs[j].genCol;
      var col := if from.Some? && from.value > c then from.value else c;
      if Reaches(c, from, Lower(to, segs[mid].genCol)) {
        assert Within(col, from, to) && segs[mid].genCol > col;
        NothingMissed(segs, col, lo, hi, j);
      }
    }
  }

  lemma {:induction false} AgreeOnTheLeft(segs: Line, lo: nat, hi: nat, from: Option<int>, to: Option<int>)
    requires lo < hi <= |segs| && Agree(segs, lo, hi, from, to)
    ensures var mid := (lo + hi) / 2; Agree(segs, lo, mid, from, Lower(to, segs[mid].genCol))
  {
    var mid := (lo + hi) / 2;
    forall col: int | Within(col, from, Lower(to, segs[mid].genCol))
      ensures Search(segs, col, lo, mid) == Scan(segs, col, lo, mid)
    {
      assert Within(col, from, to);
      forall j | mid <= j < hi ensures segs[j].genCol > col {
        NothingMissed(segs, col, lo, hi, j);
      }
      TurnsLeft(segs, col, lo, hi);
    }
  }

  lemma {:induction false} AgreeOnBoth(segs: Line, lo: nat, hi: nat, from: Option<int>, to: Option<int>, col: int)
    requires lo < hi <= |segs| && Within(col, from, to)
    requires var mid := (lo + hi) / 2;
             && NothingBeyond(segs, mid, hi, from, to)
             && Agree(segs, lo, mid, from, Lower(to, segs[mid].genCol))
             && Agree(segs, mid + 1, hi, Higher(from, segs[mid].genCol), to)
    ensures Search(segs, col, lo, hi) == Scan(segs, col, lo, hi)
  {
    var mid := (lo + hi) / 2;
    if segs[mid].genCol <= col {
      TurnsRight(segs, col, lo, hi);
      assert Within(col, Higher(from, segs[mid].genCol), to);
    } else {
      assert Within(col, from, Lower(to, segs[mid].genCol));
      forall j | mid <= j < hi ensures segs[j].genCol > col {
        assert j > mid ==> !Reaches(segs[j].genCol, from, Lower(to, segs[mid].genCol));
      }
      TurnsLeft(segs, col, lo, hi);
    }
  }

  lemma {:induction false} AgreeExactlyWhen(segs: Line, lo: nat, hi: nat, from: Option<int>, to: Option<int>)
    requires lo < hi <= |segs|
    ensures var mid := (lo + hi) / 2;
            Agree(segs, lo, hi, from, to) <==>
              && NothingBeyond(segs, mid, hi, from, to)
              && Agree(segs, lo, mid, from, Lower(to, segs[mid].genCol))
              && Agree(segs, mid + 1, hi, Higher(from, segs[mid].genCol), to)
  {
    if Agree(segs, lo, hi, from, to) {
      AgreeOnTheLeft(segs, lo, hi, from, to);
      AgreeOnTheRight(segs, lo, hi, from, to);
      NothingReached(segs, lo, hi, from, to);
    } else {
      var col: int :| Within(col, from, to) && Search(segs, col, lo, hi) != Scan(segs, col, lo, hi);
      if NothingBeyond(segs, (lo + hi) / 2, hi, from, to)
         && Agree(segs, lo, (lo + hi) / 2, from, Lower(to, segs[(lo + hi) / 2].genCol))
         && Agree(segs, (lo + hi) / 2 + 1, hi, Higher(from, segs[(lo + hi) / 2].genCol), to) {
        AgreeOnBoth(segs, lo, hi, from, to, col);
      }
    }
  }

  lemma {:induction false} SearchableExactlyWhen(segs: Line, lo: nat, hi: nat, from: Option<int>, to: Option<int>)
    requires lo < hi <= |segs|
    ensures var mid := (lo + hi) / 2;
            Searchable(segs, lo, hi, from, to) <==>
              && NothingBeyond(segs, mid, hi, from, to)
              && Searchable(segs, lo, mid, from, Lower(to, segs[mid].genCol))
              && Searchable(segs, mid + 1, hi, Higher(from, segs[mid].genCol), to)
  {
  }

  lemma {:induction false} EmptyAgrees(segs: Line, lo: nat, from: Option<int>, to: Option<int>)
    requires lo <= |segs|
    ensures Agree(segs, lo, lo, from, to) && Searchable(segs, lo, lo, from, to)
  {
  }

  /** For every line: the search finds the scan's position on every column exactly when the line is searchable. */
  lemma {:induction false} SearchIsScanExactlyWhen(segs: Line, lo: nat, hi: nat, from: Option<int>, to: Option<int>)
    requires lo <= hi <= |segs|
    ensures Agree(segs, lo, hi, from, to) <==> Searchable(segs, lo, hi, from, to)
    decreases hi - lo
  {
    if lo == hi {
      EmptyAgrees(segs, lo, from, to);
    } else {
      var mid := (lo + hi) / 2;
      SearchableExactlyWhen(segs, lo, hi, from, to);
      SearchIsScanExactlyWhen(segs, lo, mid, from, Lower(to, segs[mid].genCol));
      SearchIsScanExactlyWhen(segs, mid + 1, hi, Higher(from, segs[mid].genCol), to);
      AgreeExactlyWhen(segs, lo, hi, from, to);
    }
  }

  /** In column order both conditions name one position. */
  lemma OrderedAgree(segs: Line, col: int, lo: nat, hi: nat, i: nat, j: nat)
    requires lo <= i <= hi <= |segs| && lo <= j <= hi && Ascending(segs)
    requires (i > lo ==> segs[i - 1].genCol <= col) && (i < hi ==> segs[i].genCol > col)
    requires (j > lo ==> segs[j - 1].genCol <= col) && (j < hi ==> segs[j].genCol > col)
    ensures i == j
  {
  }

  /** Lines in column order are searchable; they are not the only ones. */
  lemma AscendingIsSearchable(segs: Line, lo: nat, hi: nat, from: Option<int>, to: Option<int>)
    requires lo <= hi <= |segs| && Ascending(segs)
    ensures Searchable(segs, lo, hi, from, to)
  {
    forall col: int | Within(col, from, to) ensures Search(segs, col, lo, hi) == Scan(segs, col, lo, hi) {
      OrderedAgree(segs, col, lo, hi, Search(segs, col, lo, hi), Scan(segs, col, lo, hi));
    }
    SearchIsScanExactlyWhen(segs, lo, hi, from, to);
  }

  predicate Distinct(segs: Line) { forall i, j :: 0 <= i < j < |segs| ==> segs[i] != segs[j] }

  function Pick(segs: Line, i: nat): Option<Segment>
    requires i <= |segs|
  {
    if i == 0 then None else Some(segs[i - 1])
  }

  lemma PicksDiffer(segs: Line, i: nat, j: nat)
    requires Distinct(segs) && i <= |segs| && j <= |segs|
    ensures Pick(segs, i) == Pick(segs, j) <==> i == j
  {
  }

  lemma LookupPicks(segs: Line, col: int)
    ensures LookupIn([segs], 0, col) == Pick(segs, Search(segs, col, 0, |segs|))
  {
  }

  lemma ScanPicks(segs: Line, col: int)
    ensures LastAtOrBefore(segs, col) == Pick(segs, Scan(segs, col, 0, |segs|))
  {
    ScanStopsAt(segs, col, Scan(segs, col, 0, |segs|));
  }

  lemma SameAnswerExactlyWhen(segs: Line, col: int)
    requires Distinct(segs)
    ensures LookupIn([segs], 0, col) == LastAtOrBefore(segs, col) <==>
              Search(segs, col, 0, |segs|) == Scan(segs, col, 0, |segs|)
  {
    LookupPicks(segs, col);
    ScanPicks(segs, col);
    PicksDiffer(segs, Search(segs, col, 0, |segs|), Scan(segs, col, 0, |segs|));
  }

  /**
   On a line of distinct segments Lookup gives the scan's segment for every column from 0 on exactly when the line is
   searchable.
   */
  lemma LookupIsScanExactlyWhen(segs: Line)
    requires Distinct(segs)
    ensures (forall col :: col >= 0 ==> LookupIn([segs], 0, col) == LastAtOrBefore(segs, col))
            <==> Searchable(segs, 0, |segs|, Some(0), None)
  {
    SearchIsScanExactlyWhen(segs, 0, |segs|, Some(0), None);
    forall col: int
      ensures LookupIn([segs], 0, col) == LastAtOrBefore(segs, col) <==>
              Search(segs, col, 0, |segs|) == Scan(segs, col, 0, |segs|)
    {
      SameAnswerExactlyWhen(segs, col);
    }
  }

  /** Every line that is not searchable is the decoding of some mappings, and Lookup misses on it. */
  lemma UnsortedLookupMisses(segs: Line) returns (col: int)
    requires Distinct(segs) && EncodableLine(segs, 0) && !Searchable(segs, 0, |segs|, Some(0), None)
    ensures col >= 0 && DecodeLines(EncodeLines([segs], START), 0, START) == Ok([segs])
    ensures LookupIn([segs], 0, col) != LastAtOrBefore(segs, col)
  {
    LookupIsScanExactlyWhen(segs);
    col :| col >= 0 && LookupIn([segs], 0, col) != LastAtOrBefore(segs, col);
    MappingsRoundTrip([segs]);
    assert segs != [];
  }

  function At(genCol: int): Segment { Segment(0, genCol, -1, 0, 0, -1) }

  /** Columns 5, 3 are searchable though out of order; columns 5, 9, 1 are not. */
  lemma BothKindsExist()
    ensures var segs := [At(5), At(3)]; !Ascending(segs) && Searchable(segs, 0, 2, Some(0), None)
    ensures var segs := [At(5), At(9), At(1)];
            Distinct(segs) && EncodableLine(segs, 0) && !Searchable(segs, 0, 3, Some(0), None)
  {
    var segs, more := [At(5), At(3)], [At(5), At(9), At(1)];
    assert segs[0].genCol > segs[1].genCol;
    assert Searchable(segs, 0, 0, Some(0), Some(3)) && Searchable(segs, 0, 1, Some(0), Some(3));
    assert Reaches(more[2].genCol, Some(0), Lower(None, 9));
  }
}
