/** The group key of an error event: its title, the culprit frame, and the SDK's own fingerprint when there is one. */
module Fingerprint {
  import opened Wrappers
  import opened Text
  import opened Grouping
  import opened BundlePath

  datatype Frame = Frame(filename: string, absPath: string, function_: string, moduleName: string, inApp: bool)

  datatype Exception = Exception(kind: string, value: string, frames: seq<Frame>)

  datatype Payload = Payload(message: string, exceptions: seq<Exception>, fingerprint: seq<string>)

  datatype Normalized = Normalized(title: string, culprit: string, fingerprint: string)

  const SEPARATOR: char := 0x1f as char

  const NUL: char := 0 as char

  // ---- the culprit ----

  predicate Anonymous(f: Frame) {
    f.function_ == "" || f.function_ == "?" || f.function_ == "<anonymous>" || f.function_ == "anonymous"
  }

  predicate Contains(s: string, sub: string) { Index(s, sub) >= 0 }

  predicate Webpack(f: Frame) {
    HasPrefix(f.moduleName, "webpack") || Contains(f.filename, "webpack") || Contains(f.absPath, "webpack")
  }

  predicate Eligible(f: Frame) { f.inApp && !Anonymous(f) && !Webpack(f) }

  function Place(f: Frame): string {
    var path := NormalizeBundlePath(BeforeQuery(if f.filename != "" then f.filename else f.absPath));
    if f.function_ == "" then path else path + " in " + f.function_
  }

  function LastWhere<T>(s: seq<T>, p: T -> bool): (r: Option<nat>)
    ensures r.Some? ==> r.value < |s| && p(s[r.value]) && forall j :: r.value < j < |s| ==> !p(s[j])
    ensures r.None? ==> forall j :: 0 <= j < |s| ==> !p(s[j])
  {
    if s == [] then None else if p(s[|s| - 1]) then Some(|s| - 1) else LastWhere(s[..|s| - 1], p)
  }

  function TopFrame(frames: seq<Frame>): Option<nat> { LastWhere(frames, Eligible) }

  function Culprit(frames: seq<Frame>): string {
    var top := TopFrame(frames);
    if top.Some? && top.value < |frames| then Place(frames[top.value]) else ""
  }

  method PickFrame(frames: seq<Frame>) returns (chosen: Option<nat>)
    ensures chosen == TopFrame(frames)
  {
    var i := |frames|;
    while i > 0
      invariant 0 <= i <= |frames|
      invariant forall j :: i <= j < |frames| ==> !Eligible(frames[j])
    {
      i := i - 1;
      var f := frames[i];
      if !f.inApp {
        continue;
      }
      if Anonymous(f) || Webpack(f) {
        continue;
      }
      return Some(i);
    }
    chosen := None;
  }

  method NormalizedCulprit(frames: seq<Frame>) returns (culprit: string)
    ensures culprit == Culprit(frames)
  {
    var chosen := PickFrame(frames);
    if chosen.None? {
      return "";
    }
    var f := frames[chosen.value];
    var path := f.filename;
    if path == "" {
      path := f.absPath;
    }
    path := NormalizeBundlePath(BeforeQuery(path));
    if f.function_ == "" {
      return path;
    }
    culprit := path + " in " + f.function_;
  }

  lemma {:induction false} PlaceNamesTheFunction(f: Frame)
    requires Eligible(f)
    ensures Place(f) != "" && exists path :: Place(f) == path + " in " + f.function_
  {
    var path := NormalizeBundlePath(BeforeQuery(if f.filename != "" then f.filename else f.absPath));
    assert Place(f) == path + " in " + f.function_;
  }

  /** The culprit is empty exactly when no frame is eligible. */
  lemma {:induction false} CulpritEmptyExactlyWhen(frames: seq<Frame>)
    ensures Culprit(frames) == "" <==> forall j :: 0 <= j < |frames| ==> !Eligible(frames[j])
  {
    var top := TopFrame(frames);
    if top.Some? {
      PlaceNamesTheFunction(frames[top.value]);
    }
  }

  /** The topmost eligible frame gives the culprit, which ends with its function. */
  lemma {:induction false} CulpritIsTopFrame(frames: seq<Frame>, i: nat)
    requires i < |frames| && Eligible(frames[i]) && forall j :: i < j < |frames| ==> !Eligible(frames[j])
    ensures var f := frames[i];
            var path := if f.filename != "" then f.filename else f.absPath;
            Culprit(frames) == NormalizeBundlePath(BeforeQuery(path)) + " in " + f.function_
  {
    assert TopFrame(frames) == Some(i);
  }

  lemma {:induction false} ContainsExactlyWhen(s: string, sub: string)
    ensures Contains(s, sub) <==> exists i :: 0 <= i <= |s| && HasPrefix(s[i..], sub)
    decreases |s|
  {
    assert s[0..] == s;
    if HasPrefix(s, sub) || s == "" {
    } else {
      ContainsExactlyWhen(s[1..], sub);
      if i :| 0 < i <= |s| && HasPrefix(s[i..], sub) {
        assert s[1..][i - 1..] == s[i..];
      }
      if i :| 0 <= i <= |s[1..]| && HasPrefix(s[1..][i..], sub) {
        assert s[1..][i..] == s[i + 1..];
      }
    }
  }

  /** The text occurs somewhere in the string. */
  predicate Occurs(s: string, sub: string) { exists i :: 0 <= i <= |s| && HasPrefix(s[i..], sub) }

  /** A frame can name the culprit exactly when it is in-app, has a real function name and is no part of webpack. */
  lemma EligibleExactlyWhen(f: Frame)
    ensures Eligible(f) <==>
              && f.inApp && f.function_ !in ["", "?", "<anonymous>", "anonymous"]
              && !HasPrefix(f.moduleName, "webpack") && !Occurs(f.filename, "webpack") && !Occurs(f.absPath, "webpack")
  {
    ContainsExactlyWhen(f.filename, "webpack");
    ContainsExactlyWhen(f.absPath, "webpack");
  }

  // ---- the fingerprint ----

  /** The white space of the token's pattern. */
  function SkipSpace(s: string): string {
    if s != "" && (s[0] == ' ' || s[0] == '\t' || s[0] == '\n' || s[0] == '\r' || s[0] == 0xc as char)
        then SkipSpace(s[1..]) else s
  }

  /** {{ default }} at the start of `s`, with or without inner white space. */
  predicate DefaultAt(s: string) {
    && HasPrefix(s, "{{")
    && var word := SkipSpace(s[2..]);
       HasPrefix(word, "default") && HasPrefix(SkipSpace(word[7..]), "}}")
  }

  predicate HasDefault(s: string) { DefaultAt(s) || (s != "" && HasDefault(s[1..])) }

  /** One part: a default token stands for the whole default hash. */
  function Expanded(part: string, default: string): string {
    var p := TrimRight(TrimLeft(part));
    if HasDefault(p) then default else p
  }

  /** White space as the token's pattern knows it. */
  predicate Blank(c: char) { c in [' ', '\t', '\n', '\r', 0xc as char] }

  predicate Blanks(s: string) { forall c :: c in s ==> Blank(c) }

  /** A default token: the word in double braces, with or without white space inside. */
  predicate Token(t: string, a: string, b: string) { t == "{{" + a + "default" + b + "}}" && Blanks(a) && Blanks(b) }

  lemma {:induction false} SkipsBlanks(a: string, x: string)
    requires Blanks(a) && (x == "" || !Blank(x[0]))
    ensures SkipSpace(a + x) == x
  {
    if a == "" {
      assert a + x == x;
    } else {
      assert a[0] in a && (a + x)[1..] == a[1..] + x;
      assert forall c :: c in a[1..] ==> c in a;
      SkipsBlanks(a[1..], x);
    }
  }

  lemma {:induction false} CutBlanks(s: string) returns (a: string)
    ensures Blanks(a) && s == a + SkipSpace(s)
  {
    if s != "" && SkipSpace(s) != s {
      a := CutBlanks(s[1..]);
      a := [s[0]] + a;
      assert s == [s[0]] + s[1..];
    } else {
      a := "";
    }
  }

  lemma Assembled(a: string, b: string, more: string)
    ensures "{{" + (a + ("default" + (b + ("}}" + more)))) == "{{" + a + "default" + b + "}}" + more
  {
  }

  lemma Cut(s: string, p: string)
    requires HasPrefix(s, p)
    ensures s == p + s[|p|..]
  {
  }

  lemma TokenIsFound(s: string, t: string, a: string, b: string, more: string)
    requires Token(t, a, b) && s == t + more
    ensures DefaultAt(s)
  {
    var close := "}}" + more;
    var word := "default" + (b + close);
    Assembled(a, b, more);
    assert s == "{{" + (a + word) && s[2..] == a + word && s[..2] == "{{";
    SkipsBlanks(a, word);
    assert word[..7] == "default" && word[7..] == b + close;
    SkipsBlanks(b, close);
    assert close[..2] == "}}";
  }

  lemma FoundIsToken(s: string) returns (t: string, a: string, b: string, more: string)
    requires DefaultAt(s)
    ensures Token(t, a, b) && s == t + more
  {
    a := CutBlanks(s[2..]);
    var word := SkipSpace(s[2..]);
    b := CutBlanks(word[7..]);
    var close := SkipSpace(word[7..]);
    more := close[2..];
    t := "{{" + a + "default" + b + "}}";
    Cut(s, "{{");
    Cut(word, "default");
    Cut(close, "}}");
    Assembled(a, b, more);
  }

  /** The text holds a default token. */
  ghost predicate HoldsToken(s: string) { exists x, t, a, b, y :: Token(t, a, b) && s == x + (t + y) }

  lemma {:induction false} DefaultExactlyWhen(s: string)
    ensures HasDefault(s) <==> HoldsToken(s)
  {
    if DefaultAt(s) {
      var t, a, b, more := FoundIsToken(s);
      assert s == "" + (t + more);
    } else if s != "" {
      DefaultExactlyWhen(s[1..]);
      if HoldsToken(s[1..]) {
        var x, t, a, b, y :| Token(t, a, b) && s[1..] == x + (t + y);
        assert s == ([s[0]] + x) + (t + y);
      }
    }
    if HoldsToken(s) && !DefaultAt(s) {
      var x, t, a, b, y :| Token(t, a, b) && s == x + (t + y);
      if x == "" {
        TokenIsFound(s, t, a, b, y);
      } else {
        assert s[1..] == x[1..] + (t + y);
      }
    }
  }

  /**
   A part that holds a default token stands for the whole default hash, any other for itself without its white space.
   */
  lemma PartExpands(part: string, default: string)
    ensures var p := TrimRight(TrimLeft(part)); Expanded(part, default) == if HoldsToken(p) then default else p
  {
    DefaultExactlyWhen(TrimRight(TrimLeft(part)));
  }

  function ExpandedAll(parts: seq<string>, default: string): (r: seq<string>)
    ensures |r| == |parts|
  {
    seq(|parts|, i requires 0 <= i < |parts| => Expanded(parts[i], default))
  }

  function DefaultText(title: string, culprit: string): string {
    "grouping_v1" + [NUL] + "error" + [NUL] + title + [NUL] + culprit
  }

  /** `hash` is the digest as hex text. */
  function FingerprintV1(hash: string -> string, sdk: seq<string>, title: string, culprit: string): string {
    var default := hash(DefaultText(title, culprit));
    if sdk == [] then default else "f:" + Join(ExpandedAll(sdk, default), SEPARATOR)
  }

  method ComputeFingerprint(hash: string -> string, sdk: seq<string>, title: string, culprit: string)
      returns (key: string)
    ensures key == FingerprintV1(hash, sdk, title, culprit)
  {
    var def := hash(DefaultText(title, culprit));
    if |sdk| == 0 {
      return def;
    }
    var parts: seq<string> := [];
    for i := 0 to |sdk|
      invariant parts == ExpandedAll(sdk[..i], def)
    {
      var p := TrimRight(TrimLeft(sdk[i]));
      if HasDefault(p) {
        p := def;
      }
      parts := parts + [p];
    }
    assert sdk[..|sdk|] == sdk;
    key := "f:" + Join(parts, SEPARATOR);
  }

  function NormalizeEvent(hash: string -> string, p: Payload): Normalized {
    var exc := if p.exceptions == [] then Exception("", p.message, []) else p.exceptions[|p.exceptions| - 1];
    var title, culprit := NormalizeTitle(exc.kind, exc.value), Culprit(exc.frames);
    Normalized(title, culprit, FingerprintV1(hash, p.fingerprint, title, culprit))
  }

  /**
   The newest exception gives title and culprit, whatever came before it; without exceptions the message is the title.
   */
  lemma NewestExceptionDecides(hash: string -> string, p: Payload, before: seq<Exception>, x: Exception)
    ensures var n := NormalizeEvent(hash, p.(exceptions := before + [x]));
            && n.title == NormalizeTitle(x.kind, x.value) && n.culprit == Culprit(x.frames)
            && n.fingerprint == FingerprintV1(hash, p.fingerprint, n.title, n.culprit)
    ensures var n := NormalizeEvent(hash, p.(exceptions := []));
            && n.title == NormalizeTitle("", p.message) && n.culprit == ""
            && n.fingerprint == FingerprintV1(hash, p.fingerprint, n.title, "")
  {
  }

  ghost predicate HexHash(hash: string -> string) {
    && (forall a, b :: hash(a) == hash(b) ==> a == b)
    && forall s :: hash(s) != "" && AllHex(hash(s))
  }

  predicate SeparatorFree(parts: seq<string>) { forall p :: p in parts ==> 0x1f as char !in p }

  /** The expanded parts of an event's SDK fingerprint. */
  function SdkParts(hash: string -> string, sdk: seq<string>, title: string, culprit: string): seq<string> {
    ExpandedAll(sdk, hash(DefaultText(title, culprit)))
  }

  /**
   Two events with SDK fingerprints group together exactly when their expanded parts, cut at every 0x1f, are the
   same pieces; an event with an SDK fingerprint never groups with one without.
   */
  lemma {:induction false} SdkGroupsExactlyWhen(hash: string -> string, a: seq<string>, b: seq<string>,
                                                title: string, culprit: string, title': string, culprit': string)
    requires HexHash(hash) && a != []
    ensures FingerprintV1(hash, a, title, culprit) == FingerprintV1(hash, b, title', culprit') <==>
              b != [] && Pieces(SdkParts(hash, a, title, culprit), SEPARATOR) ==
                  Pieces(SdkParts(hash, b, title', culprit'), SEPARATOR)
  {
    var key, key' := FingerprintV1(hash, a, title, culprit), FingerprintV1(hash, b, title', culprit');
    var parts, parts' := SdkParts(hash, a, title, culprit), SdkParts(hash, b, title', culprit');
    assert key[1] == ':' && Join(parts, SEPARATOR) == key[2..];
    if b == [] {
      assert |key'| > 1 ==> key'[1] in key';
    } else {
      assert Join(parts', SEPARATOR) == key'[2..];
      JoinsAgreeExactlyWhen(parts, parts', SEPARATOR);
    }
  }

  /** As long as no part holds 0x1f, the pieces are the parts. */
  lemma {:induction false} PlainSdkGroupsExactlyWhen(hash: string -> string, a: seq<string>, b: seq<string>,
                                                     title: string, culprit: string, title': string, culprit': string)
    requires HexHash(hash) && a != []
    requires SeparatorFree(SdkParts(hash, a, title, culprit)) && SeparatorFree(SdkParts(hash, b, title', culprit'))
    ensures FingerprintV1(hash, a, title, culprit) == FingerprintV1(hash, b, title', culprit') <==>
              b != [] && SdkParts(hash, a, title, culprit) == SdkParts(hash, b, title', culprit')
  {
    SdkGroupsExactlyWhen(hash, a, b, title, culprit, title', culprit');
    PiecesOfWhole(SdkParts(hash, a, title, culprit), SEPARATOR);
    PiecesOfWhole(SdkParts(hash, b, title', culprit'), SEPARATOR);
  }

  /** Default keys agree exactly when title and culprit, cut at every NUL, are the same pieces. */
  lemma {:induction false} DefaultGroupsExactlyWhen(hash: string -> string, title: string, culprit: string,
      title': string, culprit': string)
    requires HexHash(hash)
    ensures FingerprintV1(hash, [], title, culprit) == FingerprintV1(hash, [], title', culprit') <==>
              Pieces([title, culprit], NUL) == Pieces([title', culprit'], NUL)
  {
    var head := "grouping_v1" + [NUL] + "error" + [NUL];
    var tail, tail' := title + [NUL] + culprit, title' + [NUL] + culprit';
    assert DefaultText(title, culprit) == head + tail && DefaultText(title', culprit') == head + tail';
    assert (head + tail)[|head|..] == tail && (head + tail')[|head|..] == tail';
    JoinOfTwo(title, culprit, NUL);
    JoinOfTwo(title', culprit', NUL);
    JoinsAgreeExactlyWhen([title, culprit], [title', culprit'], NUL);
  }

  lemma JoinOfTwo(a: string, b: string, sep: char)
    ensures Join([a, b], sep) == a + [sep] + b
    ensures Pieces([a, b], sep) == Split(a, sep) + Split(b, sep)
  {
    assert [a, b][1..] == [b] && [b][1..] == [];
    assert Pieces([b], sep) == Split(b, sep) + [];
  }

  /** For titles without NUL that is equality of title and culprit. */
  lemma {:induction false} PlainDefaultGroupsExactlyWhen(hash: string -> string, title: string, culprit: string,
      title': string, culprit': string)
    requires HexHash(hash) && NUL !in title && NUL !in title'
    ensures FingerprintV1(hash, [], title, culprit) == FingerprintV1(hash, [], title', culprit') <==>
            title == title' && culprit == culprit'
  {
    DefaultGroupsExactlyWhen(hash, title, culprit, title', culprit');
    JoinOfTwo(title, culprit, NUL);
    JoinOfTwo(title', culprit', NUL);
    SplitWhole(title, NUL);
    SplitWhole(title', NUL);
    var p, p' := [title] + Split(culprit, NUL), [title'] + Split(culprit', NUL);
    assert p[0] == title && p'[0] == title' && p[1..] == Split(culprit, NUL) && p'[1..] == Split(culprit', NUL);
    JoinOfSplit(culprit, NUL);
    JoinOfSplit(culprit', NUL);
  }

  // ---- every list of two or more parts shares its key ----

  lemma {:induction false} PrefixBefore(x: string, y: string, p: string, sep: char)
    requires HasPrefix(x + [sep] + y, p) && sep !in p
    ensures HasPrefix(x, p)
  {
    var s := x + [sep] + y;
    assert s[|x|] == sep;
    assert forall i :: 0 <= i < |p| ==> s[i] == p[i];
    assert x[..|p|] == s[..|p|];
  }

  lemma {:induction false} SkipSpaceStops(x: string, y: string)
    ensures SkipSpace(x + [SEPARATOR] + y) == SkipSpace(x) + [SEPARATOR] + y
  {
    var s := x + [SEPARATOR] + y;
    if x == "" {
      assert s[0] == SEPARATOR && SkipSpace(s) == s;
    } else {
      SkipSpaceStops(x[1..], y);
      assert s[0] == x[0] && s[1..] == x[1..] + [SEPARATOR] + y;
    }
  }

  lemma {:induction false} DefaultStaysWithin(x: string, y: string)
    requires DefaultAt(x + [SEPARATOR] + y)
    ensures DefaultAt(x)
  {
    var s := x + [SEPARATOR] + y;
    PrefixBefore(x, y, "{{", SEPARATOR);
    assert s[2..] == x[2..] + [SEPARATOR] + y;
    SkipSpaceStops(x[2..], y);
    var word := SkipSpace(x[2..]);
    PrefixBefore(word, y, "default", SEPARATOR);
    assert (word + [SEPARATOR] + y)[7..] == word[7..] + [SEPARATOR] + y;
    SkipSpaceStops(word[7..], y);
    PrefixBefore(SkipSpace(word[7..]), y, "}}", SEPARATOR);
  }

  /** A default token never reaches across a 0x1f. */
  lemma {:induction false} NoTokenAcross(x: string, y: string)
    requires !HasDefault(x) && !HasDefault(y)
    ensures !HasDefault(x + [SEPARATOR] + y)
  {
    var s := x + [SEPARATOR] + y;
    if DefaultAt(s) {
      DefaultStaysWithin(x, y);
    }
    if x == "" {
      assert s[1..] == y;
    } else {
      NoTokenAcross(x[1..], y);
      assert s[1..] == x[1..] + [SEPARATOR] + y;
    }
  }

  lemma {:induction false} NoBraceNoDefault(s: string)
    requires '{' !in s
    ensures !HasDefault(s)
  {
    if s == "" {
    } else {
      assert s[0] in s;
      NoBraceNoDefault(s[1..]);
    }
  }

  /** No white space at either end, and no default token. */
  predicate Settled(p: string) { (p != "" ==> !IsSpace(p[0]) && !IsSpace(p[|p| - 1])) && !HasDefault(p) }

  lemma {:induction false} TrimmedLeft(s: string)
    ensures TrimLeft(s) != "" ==> !IsSpace(TrimLeft(s)[0])
  {
    if s != "" && IsSpace(s[0]) {
      TrimmedLeft(s[1..]);
    }
  }

  lemma {:induction false} TrimmedRight(s: string)
    ensures TrimRight(s) != "" ==> TrimRight(s)[0] == s[0] && !IsSpace(TrimRight(s)[|TrimRight(s)| - 1])
  {
    if s != "" && IsSpace(s[|s| - 1]) {
      TrimmedRight(s[..|s| - 1]);
    }
  }

  lemma {:induction false} ExpandedSettles(part: string, default: string)
    requires Settled(default)
    ensures Settled(Expanded(part, default))
  {
    TrimmedLeft(part);
    TrimmedRight(TrimLeft(part));
  }

  lemma {:induction false} JoinSettles(parts: seq<string>)
    requires parts != [] && forall p :: p in parts ==> Settled(p)
    ensures Settled(Join(parts, SEPARATOR))
  {
    assert parts[0] in parts;
    if |parts| > 1 {
      JoinSettles(parts[1..]);
      NoTokenAcross(parts[0], Join(parts[1..], SEPARATOR));
    }
  }

  lemma {:induction false} HexSettles(s: string)
    requires AllHex(s)
    ensures Settled(s)
  {
    NoBraceNoDefault(s);
    assert s != "" ==> s[0] in s && s[|s| - 1] in s;
  }

  /** Every SDK fingerprint of two or more parts shares its key with one of a single part: the parts joined by 0x1f. */
  lemma {:induction false} SeparatorsMergeGroups(hash: string -> string, sdk: seq<string>, title: string,
      culprit: string)
    requires HexHash(hash) && |sdk| > 1
    ensures var joined := Join(SdkParts(hash, sdk, title, culprit), SEPARATOR);
            FingerprintV1(hash, [joined], title, culprit) == FingerprintV1(hash, sdk, title, culprit)
            && SdkParts(hash, [joined], title, culprit) == [joined] != SdkParts(hash, sdk, title, culprit)
  {
    var default, parts := hash(DefaultText(title, culprit)), SdkParts(hash, sdk, title, culprit);
    HexSettles(default);
    forall p | p in parts ensures Settled(p) {
      var i :| 0 <= i < |parts| && parts[i] == p;
      ExpandedSettles(sdk[i], default);
    }
    JoinSettles(parts);
    assert Expanded(Join(parts, SEPARATOR), default) == Join(parts, SEPARATOR);
    assert |parts| == |sdk|;
  }

  /** A NUL in the title moves the border between title and culprit. */
  lemma {:induction false} NulMovesTheBorder(hash: string -> string, x: string, y: string, culprit: string)
    ensures FingerprintV1(hash, [], x + [NUL] + y, culprit) == FingerprintV1(hash, [], x, y + [NUL] + culprit)
  {
    assert DefaultText(x + [NUL] + y, culprit) == DefaultText(x, y + [NUL] + culprit);
  }

  /** The newest exception's value, or the message: what the title is made from. */
  function TitleText(p: Payload): string {
    if p.exceptions == [] then p.message else p.exceptions[|p.exceptions| - 1].value
  }

  function WithTitleText(p: Payload, text: string): Payload {
    if p.exceptions == [] then p.(message := text)
    else p.(exceptions := p.exceptions[|p.exceptions| - 1 := p.exceptions[|p.exceptions| - 1].(value := text)])
  }

  /** Events that differ only in numbers inside their message land in the same group. */
  lemma {:induction false} NumbersShareAGroup(hash: string -> string, p: Payload, text: string)
    requires AlikeUpToNumbers(ReplaceUuid(TitleText(p)), ReplaceUuid(text))
    ensures NormalizeEvent(hash, WithTitleText(p, text)) == NormalizeEvent(hash, p)
  {
    NumbersDoNotMatter(if p.exceptions == [] then "" else p.exceptions[|p.exceptions| - 1].kind, TitleText(p), text);
  }
}
