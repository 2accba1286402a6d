/** The self-time breakdown of one transaction in the trace view, over the reals. */
module SelfTime {
  datatype Span = Span(id: string, parent: string, duration: real)

  function Clamp(x: real): real { if x < 0.0 then 0.0 else x }

  /** The summed durations of the spans that satisfy `p`. */
  function SumWhere(spans: seq<Span>, p: Span -> bool): real {
    if spans == [] then 0.0 else
    var last := spans[|spans| - 1];
    SumWhere(spans[..|spans| - 1], p) + (if p(last) then last.duration else 0.0)
  }

  function ChildOf(id: string): Span -> bool { (c: Span) => c.parent == id }

  /** No parent, or one that is not in the transaction. */
  function TopLevel(ids: set<string>): Span -> bool { (s: Span) => s.parent == "" || s.parent !in ids }

  function Any(): Span -> bool { (s: Span) => true }

  function ChildrenSum(spans: seq<Span>, id: string): real { SumWhere(spans, ChildOf(id)) }

  function Ids(spans: seq<Span>): set<string> { set s | s in spans :: s.id }

  /** Duration minus the direct children's durations, before the clamp. */
  function RawSelf(spans: seq<Span>, s: Span): real { s.duration - ChildrenSum(spans, s.id) }

  /** The transaction's duration minus its top-level spans. */
  function RawRoot(spans: seq<Span>, duration: real): real { duration - SumWhere(spans, TopLevel(Ids(spans))) }

  function SelfSum(spans: seq<Span>, part: seq<Span>): real {
    if part == [] then 0.0 else SelfSum(spans, part[..|part| - 1]) + Clamp(RawSelf(spans, part[|part| - 1]))
  }

  function ChildrenOf(spans: seq<Span>, id: string): seq<Span> {
    if spans == [] then [] else
    var last := spans[|spans| - 1];
    ChildrenOf(spans[..|spans| - 1], id) + (if last.parent == id then [last] else [])
  }

  lemma {:induction false} ChildrenAdd(spans: seq<Span>, id: string)
    ensures SumWhere(ChildrenOf(spans, id), Any()) == ChildrenSum(spans, id)
  {
    if spans == [] {
    } else {
      var init, last, before := spans[..|spans| - 1], spans[|spans| - 1], ChildrenOf(spans[..|spans| - 1], id);
      ChildrenAdd(init, id);
      assert last.parent == id ==> (before + [last])[..|before|] == before;
      assert last.parent != id ==> before + [] == before;
    }
  }

  function At(m: map<string, seq<Span>>, id: string): seq<Span> { if id in m then m[id] else [] }

  /** The ids and the children by parent. */
  method GroupSpans(spans: seq<Span>) returns (byId: set<string>, children: map<string, seq<Span>>)
    ensures byId == Ids(spans) && forall id :: At(children, id) == ChildrenOf(spans, id)
  {
    byId, children := {}, map[];
    for i := 0 to |spans|
      invariant byId == Ids(spans[..i])
      invariant forall id :: At(children, id) == ChildrenOf(spans[..i], id)
    {
      var sp := spans[i];
      ghost var before := children;
      assert spans[..i + 1] == spans[..i] + [sp];
      byId := byId + {sp.id};
      children := children[sp.parent := At(children, sp.parent) + [sp]];
      OneMoreGrouped(before, spans[..i], sp);
    }
    assert spans[..|spans|] == spans;
  }

  lemma {:induction false} OneMoreChild(spans: seq<Span>, sp: Span, id: string)
    ensures ChildrenOf(spans + [sp], id) == if sp.parent == id then ChildrenOf(spans, id) + [sp]
            else ChildrenOf(spans, id)
  {
    assert (spans + [sp])[..|spans|] == spans;
  }

  lemma OneMoreGrouped(children: map<string, seq<Span>>, spans: seq<Span>, sp: Span)
    requires forall id :: At(children, id) == ChildrenOf(spans, id)
    ensures forall id :: At(children[sp.parent := At(children, sp.parent) + [sp]], id) == ChildrenOf(spans + [sp], id)
  {
    forall id ensures At(children[sp.parent := At(children, sp.parent) + [sp]], id) == ChildrenOf(spans + [sp], id) {
      OneMoreChild(spans, sp, id);
      assert At(children, id) == ChildrenOf(spans, id);
    }
  }

  method RootSelf(spans: seq<Span>, duration: real, byId: set<string>) returns (rootSelf: real)
    requires byId == Ids(spans)
    ensures rootSelf == Clamp(RawRoot(spans, duration))
  {
    rootSelf := duration;
    for i := 0 to |spans|
      invariant rootSelf == duration - SumWhere(spans[..i], TopLevel(byId))
    {
      assert spans[..i + 1][..i] == spans[..i];
      if spans[i].parent == "" || spans[i].parent !in byId {
        rootSelf := rootSelf - spans[i].duration;
      }
    }
    assert spans[..|spans|] == spans;
    if rootSelf < 0.0 {
      rootSelf := 0.0;
    }
  }

  /** The loops over the spans, their children and the top-level spans. */
  method SelfTimes(spans: seq<Span>, duration: real) returns (selves: seq<real>, rootSelf: real)
    ensures |selves| == |spans| && forall i :: 0 <= i < |spans| ==> selves[i] == Clamp(RawSelf(spans, spans[i]))
    ensures rootSelf == Clamp(RawRoot(spans, duration))
  {
    var byId, children := GroupSpans(spans);
    selves := [];
    for i := 0 to |spans|
      invariant |selves| == i && forall k :: 0 <= k < i ==> selves[k] == Clamp(RawSelf(spans, spans[k]))
    {
      ChildrenAdd(spans, spans[i].id);
      assert At(children, spans[i].id) == ChildrenOf(spans, spans[i].id);
      var self := Minus(spans[i].duration, At(children, spans[i].id));
      selves := selves + [if self < 0.0 then 0.0 else self];
    }
    rootSelf := RootSelf(spans, duration, byId);
  }

  method Minus(from: real, kids: seq<Span>) returns (self: real)
    ensures self == from - SumWhere(kids, Any())
  {
    self := from;
    for i := 0 to |kids|
      invariant self == from - SumWhere(kids[..i], Any())
    {
      assert kids[..i + 1][..i] == kids[..i];
      self := self - kids[i].duration;
    }
    assert kids[..|kids|] == kids;
  }

  // ---- conservation ----

  lemma {:induction false} SumSplits(spans: seq<Span>, p: Span -> bool, q: Span -> bool, r: Span -> bool)
    requires forall s :: s in spans ==> (r(s) <==> p(s) || q(s)) && !(p(s) && q(s))
    ensures SumWhere(spans, r) == SumWhere(spans, p) + SumWhere(spans, q)
  {
    if spans == [] {
    } else {
      assert spans[|spans| - 1] in spans;
      SumSplits(spans[..|spans| - 1], p, q, r);
    }
  }

  function RawSum(spans: seq<Span>, part: seq<Span>): real {
    if part == [] then 0.0 else RawSum(spans, part[..|part| - 1]) + RawSelf(spans, part[|part| - 1])
  }

  function Times(x: real, n: nat): real { if n == 0 then 0.0 else Times(x, n - 1) + x }

  /** How many spans have the id. */
  function Mult(part: seq<Span>, id: string): nat {
    if part == [] then 0 else Mult(part[..|part| - 1], id) + (if part[|part| - 1].id == id then 1 else 0)
  }

  /** What the self-times of `part` subtract: each span once for every span of `part` it names as its parent. */
  function Subtracted(spans: seq<Span>, part: seq<Span>): real {
    if spans == [] then 0.0 else
    var last := spans[|spans| - 1];
    Subtracted(spans[..|spans| - 1], part) + Times(last.duration, Mult(part, last.parent))
  }

  lemma {:induction false} NoneSubtracts(spans: seq<Span>)
    ensures Subtracted(spans, []) == 0.0
  {
    if spans == [] {
    } else {
      NoneSubtracts(spans[..|spans| - 1]);
    }
  }

  lemma {:induction false} OneMoreSubtracts(spans: seq<Span>, part: seq<Span>, s: Span)
    ensures Subtracted(spans, part + [s]) == Subtracted(spans, part) + ChildrenSum(spans, s.id)
  {
    if spans == [] {
    } else {
      var last := spans[|spans| - 1];
      OneMoreSubtracts(spans[..|spans| - 1], part, s);
      assert (part + [s])[..|part|] == part;
    }
  }

  /** The raw self-times of any spans at all add up to their durations less what they subtract. */
  lemma {:induction false} RawSumIs(spans: seq<Span>, part: seq<Span>)
    ensures RawSum(spans, part) == SumWhere(part, Any()) - Subtracted(spans, part)
  {
    if part == [] {
      NoneSubtracts(spans);
    } else {
      var init, last := part[..|part| - 1], part[|part| - 1];
      RawSumIs(spans, init);
      OneMoreSubtracts(spans, init, last);
      assert part == init + [last];
    }
  }

  predicate UniqueIds(spans: seq<Span>) { forall i, j :: 0 <= i < j < |spans| ==> spans[i].id != spans[j].id }

  lemma IdsOneMore(init: seq<Span>, s: Span)
    ensures Ids(init + [s]) == Ids(init) + {s.id}
    ensures UniqueIds(init + [s]) ==> UniqueIds(init) && s.id !in Ids(init)
  {
    var part := init + [s];
    assert forall i :: 0 <= i < |init| ==> part[i] == init[i];
    assert part[|init|] == s;
  }

  lemma {:induction false} MultIs(part: seq<Span>, id: string)
    ensures Mult(part, id) > 0 <==> id in Ids(part)
    ensures UniqueIds(part) ==> Mult(part, id) <= 1
  {
    if part == [] {
    } else {
      var init, last := part[..|part| - 1], part[|part| - 1];
      MultIs(init, id);
      assert part == init + [last];
      IdsOneMore(init, last);
    }
  }

  /** How often a span is subtracted beyond the one time that accounts for it. */
  function Extra(spans: seq<Span>, c: Span): nat {
    MultIs(spans, c.parent);
    Mult(spans, c.parent) - (if TopLevel(Ids(spans))(c) then 0 else 1)
  }

  /** The time of `part` that is subtracted more than once. */
  function Excess(spans: seq<Span>, part: seq<Span>): real {
    if part == [] then 0.0 else
    var last := part[|part| - 1];
    Excess(spans, part[..|part| - 1]) + Times(last.duration, Extra(spans, last))
  }

  function Nested(ids: set<string>): Span -> bool { (s: Span) => !TopLevel(ids)(s) }

  lemma {:induction false} SubtractedIs(spans: seq<Span>, part: seq<Span>)
    ensures Subtracted(part, spans) == SumWhere(part, Nested(Ids(spans))) + Excess(spans, part)
  {
    if part == [] {
    } else {
      var last := part[|part| - 1];
      SubtractedIs(spans, part[..|part| - 1]);
    }
  }

  /** Whatever the ids and parent links, before clamping the self-times and the root miss the duration by the excess. */
  lemma {:induction false} RawTimesAddUp(spans: seq<Span>, duration: real)
    ensures RawSum(spans, spans) + RawRoot(spans, duration) == duration - Excess(spans, spans)
  {
    RawSumIs(spans, spans);
    SubtractedIs(spans, spans);
    SumSplits(spans, Nested(Ids(spans)), TopLevel(Ids(spans)), Any());
  }

  /** What clamping adds to the self-times of `part`. */
  function Clamped(spans: seq<Span>, part: seq<Span>): real {
    if part == [] then 0.0 else
    var raw := RawSelf(spans, part[|part| - 1]);
    Clamped(spans, part[..|part| - 1]) + (Clamp(raw) - raw)
  }

  lemma {:induction false} ClampingAdds(spans: seq<Span>, part: seq<Span>)
    ensures SelfSum(spans, part) == RawSum(spans, part) + Clamped(spans, part)
    ensures Clamped(spans, part) >= 0.0
    ensures Clamped(spans, part) == 0.0 <==> forall s :: s in part ==> RawSelf(spans, s) >= 0.0
  {
    if part == [] {
    } else {
      var init, last := part[..|part| - 1], part[|part| - 1];
      ClampingAdds(spans, init);
      assert part == init + [last];
    }
  }

  /** All the time the page shows: every self-time and the root's. */
  function Shown(spans: seq<Span>, duration: real): real { SelfSum(spans, spans) + Clamp(RawRoot(spans, duration)) }

  /**
   For all spans: the breakdown never shows less than the duration without the excess, and exactly that when nothing
   was clamped.
   */
  lemma {:induction false} BreakdownConserves(spans: seq<Span>, duration: real)
    ensures Shown(spans, duration) >= duration - Excess(spans, spans)
    ensures Shown(spans, duration) == duration - Excess(spans, spans) <==>
              RawRoot(spans, duration) >= 0.0 && forall s :: s in spans ==> RawSelf(spans, s) >= 0.0
  {
    RawTimesAddUp(spans, duration);
    ClampingAdds(spans, spans);
  }

  /** The breakdown falls short of the duration exactly when the excess outweighs what clamping added. */
  lemma {:induction false} TimeIsLostExactlyWhen(spans: seq<Span>, duration: real)
    ensures Shown(spans, duration) < duration <==>
              Clamped(spans, spans) + Clamp(RawRoot(spans, duration)) - RawRoot(spans, duration) < Excess(spans, spans)
  {
    RawTimesAddUp(spans, duration);
    ClampingAdds(spans, spans);
  }

  // ---- which spans are subtracted too often ----

  /** A span is subtracted too often exactly when its parent id is repeated, or is empty and some span's id. */
  lemma {:induction false} ExtraExactlyWhen(spans: seq<Span>, c: Span)
    ensures Extra(spans, c) > 0 <==> if c.parent == "" then "" in Ids(spans) else Mult(spans, c.parent) > 1
  {
    MultIs(spans, c.parent);
  }

  lemma {:induction false} NothingTimes(x: real, n: nat)
    requires x == 0.0 || n == 0
    ensures Times(x, n) == 0.0
  {
    if n == 0 {
    } else {
      NothingTimes(x, n - 1);
    }
  }

  lemma {:induction false} ExcessIsZero(spans: seq<Span>, part: seq<Span>)
    requires forall c :: c in part ==> c.duration == 0.0 || Extra(spans, c) == 0
    ensures Excess(spans, part) == 0.0
  {
    if part == [] {
    } else {
      var last := part[|part| - 1];
      assert last in part;
      ExcessIsZero(spans, part[..|part| - 1]);
      NothingTimes(last.duration, Extra(spans, last));
    }
  }

  /**
   With unique non-empty ids, whatever the parent links, the excess is zero: cycles and missing parents lose nothing.
   */
  lemma {:induction false} UniqueIdsLoseNothing(spans: seq<Span>)
    requires UniqueIds(spans) && "" !in Ids(spans)
    ensures Excess(spans, spans) == 0.0
  {
    forall c | c in spans ensures Extra(spans, c) == 0 {
      ExtraExactlyWhen(spans, c);
      MultIs(spans, c.parent);
    }
    ExcessIsZero(spans, spans);
  }

  /**
   Where no duration is negative the excess is zero exactly when every span that is subtracted too often takes no time.
   */
  lemma {:induction false} ExcessIsZeroExactlyWhen(spans: seq<Span>, part: seq<Span>)
    requires forall c :: c in part ==> c.duration >= 0.0
    ensures Excess(spans, part) >= 0.0
    ensures Excess(spans, part) == 0.0 <==> forall c :: c in part ==> c.duration == 0.0 || Extra(spans, c) == 0
  {
    if part == [] {
    } else {
      var init, last := part[..|part| - 1], part[|part| - 1];
      ExcessIsZeroExactlyWhen(spans, init);
      ExtraExactlyWhen(spans, last);
      assert part == init + [last] && last in part;
      TimesIsZeroExactlyWhen(last.duration, Extra(spans, last));
    }
  }

  lemma {:induction false} TimesIsZeroExactlyWhen(x: real, n: nat)
    requires x >= 0.0
    ensures Times(x, n) >= 0.0 && (Times(x, n) == 0.0 <==> x == 0.0 || n == 0)
  {
    if n == 0 {
    } else {
      TimesIsZeroExactlyWhen(x, n - 1);
    }
  }
}
