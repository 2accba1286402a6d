/** Grouping keys of error events: titles and paths stripped of what changes between occurrences. */
module Grouping {
  // ---- character classes ----

  predicate Digit(c: char) { '0' <= c <= '9' }

  predicate Hex(c: char) { Digit(c) || 'a' <= c <= 'f' || 'A' <= c <= 'F' }

  predicate Alnum(c: char) { Digit(c) || 'a' <= c <= 'z' || 'A' <= c <= 'Z' }

  predicate AllHex(s: string) { forall c :: c in s ==> Hex(c) }

  predicate AllAlnum(s: string) { forall c :: c in s ==> Alnum(c) }

  // ---- title parameters ----

  /** Hex digits in groups of 8, 4, 4, 4 and 12 joined by dashes. */
  predicate UuidAt(s: string) {
    |s| >= 36 && forall i :: 0 <= i < 36 ==> if i == 8 || i == 13 || i == 18 || i == 23 then s[i] == '-' else Hex(s[i])
  }

  /** uuidRe.ReplaceAllString: leftmost matches, none overlapping. */
  function ReplaceUuid(s: string): string {
    if s == "" then "" else if UuidAt(s) then "{uuid}" + ReplaceUuid(s[36..]) else [s[0]] + ReplaceUuid(s[1..])
  }

  /** The length of the run of hex digits, or digits, that `s` starts with. */
  function HexRun(s: string): (n: nat)
    ensures n <= |s| && AllHex(s[..n]) && (n < |s| ==> !Hex(s[n]))
  {
    if s == "" || !Hex(s[0]) then 0 else
    var n := HexRun(s[1..]);
    assert s[..n + 1] == [s[0]] + s[1..][..n];
    n + 1
  }

  function DigitRun(s: string): (n: nat)
    ensures n <= |s| && (n < |s| ==> !Digit(s[n]))
  {
    if s == "" || !Digit(s[0]) then 0 else DigitRun(s[1..]) + 1
  }

  const MIN_HEX := 8

  /** What hexRe leaves of one maximal run. */
  function HexToken(run: string): string { if |run| >= MIN_HEX then "{hex}" else run }

  function ReplaceHex(s: string): string
    decreases |s|
  {
    if s == "" then ""
    else if !Hex(s[0]) then [s[0]] + ReplaceHex(s[1..])
    else HexToken(s[..HexRun(s)]) + ReplaceHex(s[HexRun(s)..])
  }

  function ReplaceNum(s: string): string
    decreases |s|
  {
    if s == "" then ""
    else if !Digit(s[0]) then [s[0]] + ReplaceNum(s[1..])
    else "{num}" + ReplaceNum(s[DigitRun(s)..])
  }

  function Parameterize(s: string): string { ReplaceNum(ReplaceHex(ReplaceUuid(s))) }

  const TITLE_CAP := 256

  function TruncateGrouping(s: string, n: nat): string { if |s| <= n then s else s[..n] }

  function NormalizeTitle(kind: string, value: string): string {
    TruncateGrouping(Parameterize(if kind != "" then kind + ": " + value else value), TITLE_CAP)
  }

  // ---- a normalised title is stable ----

  /** With k hex digits just before it, `s` completes no run of eight. */
  predicate Short(s: string, k: nat) {
    k < MIN_HEX && (s == "" || Short(s[1..], if Hex(s[0]) then k + 1 else 0))
  }

  predicate NoDigit(s: string) { forall c :: c in s ==> !Digit(c) }

  lemma {:induction false} ShortWeakens(s: string, k: nat, j: nat)
    requires Short(s, k) && j <= k
    ensures Short(s, j)
  {
    if s == "" {
    } else {
      ShortWeakens(s[1..], if Hex(s[0]) then k + 1 else 0, if Hex(s[0]) then j + 1 else 0);
    }
  }

  lemma {:induction false} ShortCons(c: char, s: string, k: nat)
    requires k < MIN_HEX && Short(s, if Hex(c) then k + 1 else 0)
    ensures Short([c] + s, k)
  {
    assert ([c] + s)[1..] == s;
  }

  lemma {:induction false} ShortRun(run: string, s: string, k: nat)
    requires AllHex(run) && Short(s, k + |run|)
    ensures Short(run + s, k)
  {
    if run == "" {
      assert run + s == s;
    } else {
      ShortWeakens(s, k + |run|, k);
      ShortRun(run[1..], s, k + 1);
      assert run + s == [run[0]] + (run[1..] + s);
      ShortCons(run[0], run[1..] + s, k);
    }
  }

  /** A token's closing brace starts the count afresh. */
  lemma {:induction false} ShortAfterToken(token: string, s: string, k: nat)
    requires token != "" && !Hex(token[|token| - 1]) && Short(token, k) && Short(s, 0)
    ensures Short(token + s, k)
  {
    if |token| > 1 {
      ShortAfterToken(token[1..], s, if Hex(token[0]) then k + 1 else 0);
    }
    assert token + s == [token[0]] + (token[1..] + s);
    assert |token| == 1 ==> token[1..] + s == s;
    ShortCons(token[0], token[1..] + s, k);
  }

  lemma {:induction false} TokensAreShort(k: nat)
    requires k < MIN_HEX
    ensures Short("{hex}", k) && Short("{num}", k)
  {
    assert Short("x}", 1) by {
      ShortCons('}', "", 0);
      ShortCons('x', "}", 1);
      assert ['x'] + "}" == "x}";
    }
    assert Short("{hex}", k) by {
      ShortCons('e', "x}", 0);
      ShortCons('h', "ex}", 0);
      ShortCons('{', "hex}", k);
      assert ['e'] + "x}" == "ex}" && ['h'] + "ex}" == "hex}" && ['{'] + "hex}" == "{hex}";
    }
    assert Short("um}", 0) by {
      ShortCons('}', "", 0);
      ShortCons('m', "}", 0);
      ShortCons('u', "m}", 0);
      assert ['m'] + "}" == "m}" && ['u'] + "m}" == "um}";
    }
    ShortCons('n', "um}", 0);
    ShortCons('{', "num}", k);
    assert ['n'] + "um}" == "num}" && ['{'] + "num}" == "{num}";
  }

  /** No run of eight hex digits survives; after a non-hex character even with digits before it. */
  lemma {:induction false} ReplaceHexIsShort(s: string, k: nat)
    requires k == 0 || (k < MIN_HEX && (s == "" || !Hex(s[0])))
    ensures Short(ReplaceHex(s), k)
    decreases |s|
  {
    if s == "" {
    } else if !Hex(s[0]) {
      ReplaceHexIsShort(s[1..], 0);
      ShortCons(s[0], ReplaceHex(s[1..]), k);
    } else {
      var n := HexRun(s);
      var rest := ReplaceHex(s[n..]);
      if n >= MIN_HEX {
        ReplaceHexIsShort(s[n..], 0);
        TokensAreShort(0);
        ShortAfterToken("{hex}", rest, 0);
      } else {
        ReplaceHexIsShort(s[n..], n);
        ShortRun(s[..n], rest, 0);
      }
    }
  }

  lemma {:induction false} ReplaceNumKeepsShort(s: string, k: nat)
    requires Short(s, k)
    ensures Short(ReplaceNum(s), k)
    decreases |s|
  {
    if s == "" {
    } else if !Digit(s[0]) {
      ReplaceNumKeepsShort(s[1..], if Hex(s[0]) then k + 1 else 0);
      ShortCons(s[0], ReplaceNum(s[1..]), k);
    } else {
      var n := DigitRun(s);
      ShortSuffix(s, k, n);
      ReplaceNumKeepsShort(s[n..], 0);
      TokensAreShort(k);
      ShortAfterToken("{num}", ReplaceNum(s[n..]), k);
    }
  }

  lemma {:induction false} ShortSuffix(s: string, k: nat, n: nat)
    requires Short(s, k) && n <= |s|
    ensures Short(s[n..], 0)
  {
    if n == 0 {
      ShortWeakens(s, k, 0);
      assert s[0..] == s;
    } else {
      ShortSuffix(s[1..], if Hex(s[0]) then k + 1 else 0, n - 1);
      assert s[1..][n - 1..] == s[n..];
    }
  }

  lemma {:induction false} ShortPrefix(s: string, k: nat, n: nat)
    requires Short(s, k) && n <= |s|
    ensures Short(s[..n], k)
  {
    if n == 0 {
    } else {
      ShortPrefix(s[1..], if Hex(s[0]) then k + 1 else 0, n - 1);
      assert s[..n] == [s[0]] + s[1..][..n - 1];
      ShortCons(s[0], s[1..][..n - 1], k);
    }
  }

  lemma {:induction false} ReplaceNumLeavesNoDigit(s: string)
    ensures NoDigit(ReplaceNum(s))
    decreases |s|
  {
    if s == "" {
    } else {
      ReplaceNumLeavesNoDigit(if Digit(s[0]) then s[DigitRun(s)..] else s[1..]);
    }
  }

  /** Short means that no eight neighbouring characters are all hex digits. */
  lemma {:induction false} ShortMeans(s: string, k: nat, i: nat)
    requires Short(s, k) && i + 8 <= |s|
    ensures exists j :: i <= j < i + 8 && !Hex(s[j])
  {
    if i > 0 {
      ShortMeans(s[1..], if Hex(s[0]) then k + 1 else 0, i - 1);
      var j :| i - 1 <= j < i - 1 + MIN_HEX && !Hex(s[1..][j]);
      assert s[j + 1] == s[1..][j];
    } else {
      HexRunIsShort(s, k);
      assert !Hex(s[HexRun(s)]);
    }
  }

  lemma {:induction false} HexRunIsShort(s: string, k: nat)
    requires Short(s, k)
    ensures k + HexRun(s) < MIN_HEX
  {
    if s != "" && Hex(s[0]) {
      HexRunIsShort(s[1..], k + 1);
    }
  }

  lemma {:induction false} NoUuid(s: string)
    requires Short(s, 0)
    ensures ReplaceUuid(s) == s
    decreases |s|
  {
    if s == "" {
    } else {
      ShortSuffix(s, 0, 1);
      NoUuid(s[1..]);
      if |s| >= MIN_HEX {
        ShortMeans(s, 0, 0);
      }
      assert s == [s[0]] + s[1..];
    }
  }

  lemma {:induction false} NoLongRun(s: string)
    requires Short(s, 0)
    ensures ReplaceHex(s) == s
    decreases |s|
  {
    if s == "" {
    } else {
      HexRunIsShort(s, 0);
      var n := if Hex(s[0]) then HexRun(s) else 1;
      ShortSuffix(s, 0, n);
      NoLongRun(s[n..]);
      assert s == s[..n] + s[n..] && s[..1] == [s[0]];
    }
  }

  lemma {:induction false} NoNumber(s: string)
    requires NoDigit(s)
    ensures ReplaceNum(s) == s
  {
    if s == "" {
    } else {
      assert s[0] in s;
      NoNumber(s[1..]);
      assert s == [s[0]] + s[1..];
    }
  }

  /**
   A title holds no digit and no eight hex digits in a row, even where the cut falls, and normalising it again changes
   nothing.
   */
  lemma {:induction false} TitleIsFixed(kind: string, value: string)
    ensures var t := NormalizeTitle(kind, value);
            |t| <= 256 && NoDigit(t) && Short(t, 0) && NormalizeTitle("", t) == t
  {
    var s := if kind != "" then kind + ": " + value else value;
    var hexed, full, t := ReplaceHex(ReplaceUuid(s)), Parameterize(s), NormalizeTitle(kind, value);
    ReplaceHexIsShort(ReplaceUuid(s), 0);
    ReplaceNumKeepsShort(hexed, 0);
    ReplaceNumLeavesNoDigit(hexed);
    ShortPrefix(full, 0, if |full| <= TITLE_CAP then |full| else TITLE_CAP);
    assert full[..|full|] == full;
    NoUuid(t);
    NoLongRun(t);
    NoNumber(t);
  }

  // ---- messages that differ only in numbers ----

  /**
   Run by run of hex digits the two texts are the same, or the runs are shorter than eight and agree once their
   digit runs are collapsed; everything else is the same.
   */
  predicate AlikeUpToNumbers(s: string, t: string)
    decreases |s|
  {
    if s == "" || t == "" then s == t
    else if !Hex(s[0]) || !Hex(t[0]) then s[0] == t[0] && AlikeUpToNumbers(s[1..], t[1..])
    else AlikeRuns(s[..HexRun(s)], t[..HexRun(t)]) && AlikeUpToNumbers(s[HexRun(s)..], t[HexRun(t)..])
  }

  predicate AlikeRuns(r: string, q: string) {
    r == q || (|r| < MIN_HEX && |q| < MIN_HEX && ReplaceNum(r) == ReplaceNum(q))
  }

  predicate StartsNoDigit(s: string) { s == "" || !Digit(s[0]) }

  lemma {:induction false} DigitRunSplits(x: string, y: string)
    requires StartsNoDigit(y)
    ensures DigitRun(x + y) == DigitRun(x)
  {
    if x == "" {
      assert x + y == y;
    } else if Digit(x[0]) {
      assert (x + y)[1..] == x[1..] + y;
      DigitRunSplits(x[1..], y);
    }
  }

  lemma {:induction false} NumStep(x: string, y: string)
    requires x != "" && Digit(x[0]) && StartsNoDigit(y)
    requires var n := DigitRun(x); ReplaceNum(x[n..] + y) == ReplaceNum(x[n..]) + ReplaceNum(y)
    ensures ReplaceNum(x + y) == ReplaceNum(x) + ReplaceNum(y)
  {
    DigitRunSplits(x, y);
    var n := DigitRun(x);
    assert (x + y)[n..] == x[n..] + y;
    assert "{num}" + (ReplaceNum(x[n..]) + ReplaceNum(y)) == "{num}" + ReplaceNum(x[n..]) + ReplaceNum(y);
  }

  lemma {:induction false} ReplaceNumSplits(x: string, y: string)
    requires StartsNoDigit(y)
    ensures ReplaceNum(x + y) == ReplaceNum(x) + ReplaceNum(y)
    decreases |x|
  {
    if x == "" {
      assert x + y == y;
    } else if Digit(x[0]) {
      ReplaceNumSplits(x[DigitRun(x)..], y);
      NumStep(x, y);
    } else {
      assert (x + y)[1..] == x[1..] + y;
      ReplaceNumSplits(x[1..], y);
    }
  }

  lemma {:induction false} HexSplit(s: string)
    requires s != "" && Hex(s[0])
    ensures ReplaceNum(ReplaceHex(s)) == ReplaceNum(HexToken(s[..HexRun(s)])) + ReplaceNum(ReplaceHex(s[HexRun(s)..]))
  {
    ReplaceNumSplits(HexToken(s[..HexRun(s)]), ReplaceHex(s[HexRun(s)..]));
  }

  lemma {:induction false} PlainSplit(s: string)
    requires s != "" && !Hex(s[0])
    ensures ReplaceNum(ReplaceHex(s)) == [s[0]] + ReplaceNum(ReplaceHex(s[1..]))
  {
    var rest := ReplaceHex(s[1..]);
    assert ([s[0]] + rest)[1..] == rest;
  }

  lemma {:induction false} AlikeTextsAgree(s: string, t: string)
    requires AlikeUpToNumbers(s, t)
    ensures ReplaceNum(ReplaceHex(s)) == ReplaceNum(ReplaceHex(t))
    decreases |s|
  {
    if s == "" || t == "" {
    } else if !Hex(s[0]) || !Hex(t[0]) {
      AlikeTextsAgree(s[1..], t[1..]);
      PlainSplit(s);
      PlainSplit(t);
    } else {
      AlikeTextsAgree(s[HexRun(s)..], t[HexRun(t)..]);
      HexSplit(s);
      HexSplit(t);
    }
  }

  /** Ends every UUID and every hex run: the texts before and after it are replaced independently. */
  predicate Breaks(c: char) { !Hex(c) && c != '-' }

  lemma {:induction false} UuidStops(h: string, c: char, y: string)
    requires Breaks(c)
    ensures UuidAt(h + [c] + y) == UuidAt(h)
  {
    var s := h + [c] + y;
    assert forall i :: 0 <= i < |h| ==> s[i] == h[i];
    assert s[|h|] == c;
  }

  lemma {:induction false} ReplaceUuidAround(h: string, c: char, y: string)
    requires Breaks(c)
    ensures ReplaceUuid(h + [c] + y) == ReplaceUuid(h) + [c] + ReplaceUuid(y)
    decreases |h|
  {
    var s := h + [c] + y;
    UuidStops(h, c, y);
    if h == "" {
      assert s[1..] == y;
    } else {
      var n := if UuidAt(h) then 36 else 1;
      assert s[n..] == h[n..] + [c] + y;
      ReplaceUuidAround(h[n..], c, y);
    }
  }

  lemma {:induction false} HexRunStops(h: string, c: char, y: string)
    requires !Hex(c)
    ensures HexRun(h + [c] + y) == HexRun(h)
  {
    var s := h + [c] + y;
    if h != "" && Hex(h[0]) {
      assert s[1..] == h[1..] + [c] + y;
      HexRunStops(h[1..], c, y);
    }
  }

  lemma {:induction false} Regroup(token: string, a: string, c: char, b: string)
    ensures token + (a + [c] + b) == (token + a) + [c] + b
  {
  }

  lemma {:induction false} AfterRun(h: string, c: char, y: string)
    requires !Hex(c)
    ensures var s, n := h + [c] + y, HexRun(h); HexRun(s) == n && s[..n] == h[..n] && s[n..] == h[n..] + [c] + y
  {
    HexRunStops(h, c, y);
  }

  lemma {:induction false} HexStep(h: string, c: char, y: string)
    requires h != "" && Hex(h[0]) && !Hex(c)
    requires var n := HexRun(h); ReplaceHex(h[n..] + [c] + y) == ReplaceHex(h[n..]) + [c] + ReplaceHex(y)
    ensures ReplaceHex(h + [c] + y) == ReplaceHex(h) + [c] + ReplaceHex(y)
  {
    AfterRun(h, c, y);
    Regroup(HexToken(h[..HexRun(h)]), ReplaceHex(h[HexRun(h)..]), c, ReplaceHex(y));
    assert (h + [c] + y)[0] == h[0];
  }

  lemma {:induction false} ReplaceHexAround(h: string, c: char, y: string)
    requires Breaks(c)
    ensures ReplaceHex(h + [c] + y) == ReplaceHex(h) + [c] + ReplaceHex(y)
    decreases |h|
  {
    var s := h + [c] + y;
    if h == "" {
      assert s[1..] == y;
    } else if Hex(h[0]) {
      ReplaceHexAround(h[HexRun(h)..], c, y);
      HexStep(h, c, y);
    } else {
      assert s[1..] == h[1..] + [c] + y;
      ReplaceHexAround(h[1..], c, y);
    }
  }

  lemma {:induction false} ReplaceNumAround(h: string, c: char, y: string)
    requires Breaks(c)
    ensures ReplaceNum(h + [c] + y) == ReplaceNum(h) + [c] + ReplaceNum(y)
  {
    assert h + [c] + y == h + ([c] + y) && ([c] + y)[1..] == y;
    ReplaceNumSplits(h, [c] + y);
  }

  lemma {:induction false} ParameterizeAround(h: string, c: char, y: string)
    requires Breaks(c)
    ensures Parameterize(h + [c] + y) == Parameterize(h) + [c] + Parameterize(y)
  {
    ReplaceUuidAround(h, c, y);
    ReplaceHexAround(ReplaceUuid(h), c, ReplaceUuid(y));
    ReplaceNumAround(ReplaceHex(ReplaceUuid(h)), c, ReplaceHex(ReplaceUuid(y)));
  }

  /**
   Messages that differ only in numbers, once UUID-shaped text is set aside, get the same title under the same type.
   */
  lemma {:induction false} NumbersDoNotMatter(kind: string, a: string, b: string)
    requires AlikeUpToNumbers(ReplaceUuid(a), ReplaceUuid(b))
    ensures NormalizeTitle(kind, a) == NormalizeTitle(kind, b)
  {
    AlikeTextsAgree(ReplaceUuid(a), ReplaceUuid(b));
    if kind != "" {
      assert kind + ": " + a == kind + ":" + [' '] + a && kind + ": " + b == kind + ":" + [' '] + b;
      ParameterizeAround(kind + ":", ' ', a);
      ParameterizeAround(kind + ":", ' ', b);
    }
  }

  // ---- what becomes of a word ----

  predicate AllDigits(s: string) { s != "" && forall c :: c in s ==> Digit(c) }

  lemma {:induction false} FewAreShort(s: string, k: nat)
    requires k + |s| < 8
    ensures Short(s, k)
  {
    if s != "" {
      FewAreShort(s[1..], if Hex(s[0]) then k + 1 else 0);
    }
  }

  lemma {:induction false} DigitRunIsAll(s: string)
    requires s == "" || AllDigits(s)
    ensures DigitRun(s) == |s|
  {
    if s != "" {
      assert s[0] in s;
      DigitRunIsAll(s[1..]);
    }
  }

  lemma {:induction false} NumberBecomes(s: string)
    requires AllDigits(s)
    ensures ReplaceNum(s) == "{num}"
  {
    assert s[0] in s;
    DigitRunIsAll(s);
    assert ReplaceNum(s[|s|..]) == "";
  }

  lemma {:induction false} HexHoldsNoUuid(s: string)
    requires AllHex(s)
    ensures ReplaceUuid(s) == s && HexRun(s) == |s|
  {
    if s != "" {
      assert s[0] in s && (|s| >= 36 ==> s[8] in s);
      assert !UuidAt(s);
      HexHoldsNoUuid(s[1..]);
      assert s == [s[0]] + s[1..];
    }
  }

  /** Text without digits and long hex runs is kept. */
  lemma {:induction false} PlainTextStays(s: string)
    requires NoDigit(s) && Short(s, 0)
    ensures Parameterize(s) == s
  {
    NoUuid(s);
    NoLongRun(s);
    NoNumber(s);
  }

  /** A UUID. */
  lemma {:induction false} UuidBecomes(s: string)
    requires UuidAt(s) && |s| == 36
    ensures Parameterize(s) == "{uuid}"
  {
    assert ReplaceUuid(s[36..]) == "";
    var token := "{uuid}";
    assert ReplaceUuid(s) == token + "" == token;
    FewAreShort(token, 0);
    NoLongRun(token);
    NoNumber(token);
  }

  /** Eight or more hex digits, all-digit ones included. */
  lemma {:induction false} HexBecomes(s: string)
    requires AllHex(s) && |s| >= 8
    ensures Parameterize(s) == "{hex}"
  {
    assert s[0] in s;
    HexHoldsNoUuid(s);
    assert ReplaceHex(s[|s|..]) == "" && s[..|s|] == s;
    var token := "{hex}";
    assert ReplaceHex(s) == token + "" == token;
    NoNumber(token);
  }

  /** A number in text that holds no other digit and no long hex run. */
  lemma {:induction false} NumberInTextBecomes(before: string, number: string, after: string)
    requires AllDigits(number) && NoDigit(before) && NoDigit(after) && Short(before + number + after, 0)
    ensures Parameterize(before + number + after) == before + "{num}" + after
  {
    var s := before + number + after;
    NoUuid(s);
    NoLongRun(s);
    assert StartsNoDigit(after) by {
      assert after != "" ==> after[0] in after;
    }
    NumberAt(before, number, after);
  }

  lemma {:induction false} NumberAt(before: string, number: string, after: string)
    requires AllDigits(number) && NoDigit(before) && NoDigit(after) && StartsNoDigit(after)
    ensures ReplaceNum(before + number + after) == before + "{num}" + after
  {
    var s := before + number + after;
    if before == "" {
      assert s == number + after;
      ReplaceNumSplits(number, after);
      NumberBecomes(number);
      NoNumber(after);
      assert "{num}" + after == before + "{num}" + after;
    } else {
      assert before[0] in before && s[1..] == before[1..] + number + after;
      NumberAt(before[1..], number, after);
      assert [before[0]] + (before[1..] + "{num}" + after) == before + "{num}" + after;
    }
  }

  /** The title is the parameterised "type: value", or value alone, cut after 256 characters. */
  lemma {:induction false} TitleIsAPrefix(kind: string, value: string)
    ensures var t, full := NormalizeTitle(kind, value), Parameterize(if kind == "" then value else kind + ": " + value);
            t <= full && (t != full ==> |t| == 256)
  {
  }
}
