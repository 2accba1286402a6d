/**
 Envelope framing: a header line, then items of a header line and a payload, length-prefixed or ended by a newline
 (Sentry developer documentation, "Envelopes", section "Serialization Format").
 */
module Envelope {
  import opened Wrappers

  /** `length` is 0 when the header has none; attributes the parser ignores stay in `rest`. */
  datatype ItemHeader = ItemHeader(kind: string, length: int, rest: string)

  datatype Item = Item(header: ItemHeader, payload: string)

  datatype Header = Header(text: string)

  datatype Envelope = Envelope(header: Header, items: seq<Item>)

  /** JSON encoding and decoding of the header lines. */
  datatype Codec = Codec(readHeader: string -> Option<Header>, writeHeader: Header -> string,
                         readItem: string -> Option<ItemHeader>, writeItem: ItemHeader -> string)

  const MAX_ENVELOPE_ITEMS := 1000

  /** Where the first line ends, and where the text after it starts; the last line may lack its newline. */
  function LineEnd(text: string): (e: nat)
    ensures e <= |text|
  {
    if text == "" || text[0] == '\n' then 0 else LineEnd(text[1..]) + 1
  }

  function LineUse(text: string): (n: nat)
    ensures n <= |text| && (text != "" ==> n > 0)
  {
    if LineEnd(text) < |text| then LineEnd(text) + 1 else |text|
  }

  function NextLine(text: string): (string, string) { (text[..LineEnd(text)], text[LineUse(text)..]) }

  /** One round of the loop on a text: `used` bytes are consumed, the payload starts at `at`. */
  datatype Round = Bad(error: string) | Blank(used: nat) | Framed(item: Item, at: nat, used: nat)

  /** A newline right after a length-prefixed payload is skipped. */
  function SkipNewline(text: string, i: nat): (n: nat)
    requires i <= |text|
    ensures i <= n <= |text|
  {
    if i < |text| && text[i] == '\n' then i + 1 else i
  }

  function ReadPayload(ih: ItemHeader, text: string, at: nat): (r: Round)
    requires 0 < at <= |text|
    ensures r.Framed? ==> 0 < r.used <= |text|
  {
    if ih.kind == "" then Bad("item header missing type")
    else if ih.length > 0 then
      if ih.length > |text| - at then Bad("item declares more bytes than remain")
      else Framed(Item(ih, text[at..at + ih.length]), at, SkipNewline(text, at + ih.length))
    else
      Framed(Item(ih, NextLine(text[at..]).0), at, at + LineUse(text[at..]))
  }

  /** Each round consumes something. */
  function ReadItem(codec: Codec, text: string): (r: Round)
    requires text != ""
    ensures r.Blank? ==> 0 < r.used <= |text|
    ensures r.Framed? ==> 0 < r.used <= |text|
  {
    if LineEnd(text) == 0 then Blank(LineUse(text)) else
    match codec.readItem(text[..LineEnd(text)])
    case None => Bad("item header")
    case Some(ih) => ReadPayload(ih, text, LineUse(text))
  }

  lemma {:induction false} PayloadInside(ih: ItemHeader, text: string, at: nat)
    requires 0 < at <= |text|
    ensures var r := ReadPayload(ih, text, at);
            r.Framed? ==> r.at + |r.item.payload| <= r.used && r.item.payload == text[r.at..r.at + |r.item.payload|]
  {
    var line := text[at..][..LineEnd(text[at..])];
    assert NextLine(text[at..]).0 == line && line == text[at..at + |line|];
    assert |line| <= LineUse(text[at..]);
  }

  /** The payload lies in what its round consumes. */
  lemma {:induction false} PayloadIsConsumed(codec: Codec, text: string)
    requires text != ""
    ensures var r := ReadItem(codec, text);
            r.Framed? ==> r.at + |r.item.payload| <= r.used && r.item.payload == text[r.at..r.at + |r.item.payload|]
  {
    var line := codec.readItem(text[..LineEnd(text)]);
    if line.Some? {
      PayloadInside(line.value, text, LineUse(text));
    }
  }

  function Cons(item: Item, r: Result<seq<Item>>): Result<seq<Item>> {
    match r
    case Ok(items) => Ok([item] + items)
    case Err(m) => Err(m)
  }

  function Prepend(items: seq<Item>, r: Result<seq<Item>>): Result<seq<Item>> {
    match r
    case Ok(more) => Ok(items + more)
    case Err(m) => Err(m)
  }

  lemma {:induction false} PrependNothing(r: Result<seq<Item>>)
    ensures Prepend([], r) == r
  {
    assert r.Ok? ==> [] + r.value == r.value;
  }

  lemma {:induction false} PrependCons(items: seq<Item>, item: Item, r: Result<seq<Item>>)
    ensures Prepend(items, Cons(item, r)) == Prepend(items + [item], r)
  {
    assert r.Ok? ==> items + ([item] + r.value) == items + [item] + r.value;
  }

  /** The items of `text` when `n` have been read already. */
  function ParseItems(codec: Codec, text: string, n: nat): Result<seq<Item>>
    decreases |text|
  {
    if text == "" || n >= MAX_ENVELOPE_ITEMS then Ok([]) else
    match ReadItem(codec, text)
    case Bad(m) => Err(m)
    case Blank(used) => ParseItems(codec, text[used..], n)
    case Framed(item, _, used) => Cons(item, ParseItems(codec, text[used..], n + 1))
  }

  function Parse(codec: Codec, data: string): Result<Envelope> {
    if data == "" then Err("empty envelope") else
    var (line, rest) := NextLine(data);
    var header := if line == "" then Some(Header("")) else codec.readHeader(line);
    if header.None? then Err("envelope header") else
    match ParseItems(codec, rest, 0)
    case Ok(items) => Ok(Envelope(header.value, items))
    case Err(m) => Err(m)
  }

  /** The payload of one item, cut from the start of `rest`, which is `text` from `at` on. */
  method TakePayload(ih: ItemHeader, rest: string, ghost text: string, ghost at: nat)
      returns (item: Result<Item>, more: string)
    requires 0 < at <= |text| && rest == text[at..]
    ensures match ReadPayload(ih, text, at)
            case Bad(m) => item == Err(m)
            case Blank(_) => true
            case Framed(i, _, used) => item == Ok(i) && more == text[used..]
  {
    more := rest;
    if ih.kind == "" {
      return Err("item header missing type"), more;
    }
    var payload: string;
    if ih.length > 0 {
      if ih.length > |rest| {
        return Err("item declares more bytes than remain"), more;
      }
      payload := rest[..ih.length];
      more := rest[ih.length..];
      assert payload == text[at..at + ih.length] && more == text[at + ih.length..];
      if |more| > 0 && more[0] == '\n' {
        more := more[1..];
      }
    } else {
      var line := NextLine(rest);
      payload, more := line.0, line.1;
    }
    item := Ok(Item(ih, payload));
  }

  /** The body of the loop: the item read, if any, and what remains. */
  method NextItem(codec: Codec, text: string, ghost n: nat) returns (item: Result<Option<Item>>, rest: string)
    requires text != "" && n < MAX_ENVELOPE_ITEMS
    ensures item.Err? ==> ParseItems(codec, text, n) == Err(item.error)
    ensures item == Ok(None) ==> ParseItems(codec, text, n) == ParseItems(codec, rest, n)
    ensures item.Ok? && item.value.Some? ==>
            ParseItems(codec, text, n) == Cons(item.value.value, ParseItems(codec, rest, n + 1))
    ensures item.Ok? ==> |rest| < |text|
  {
    var head := NextLine(text);
    rest := head.1;
    if |head.0| == 0 {
      return Ok(None), rest;
    }
    var parsed := codec.readItem(head.0);
    if parsed.None? {
      return Err("item header"), rest;
    }
    var framed, more := TakePayload(parsed.value, rest, text, LineUse(text));
    if framed.Err? {
      return Err(framed.error), more;
    }
    return Ok(Some(framed.value)), more;
  }

  /** The items with the next one, if any. */
  method AppendItem(codec: Codec, text: string, items: seq<Item>, ghost all: Result<seq<Item>>)
      returns (r: Result<seq<Item>>, rest: string)
    requires text != "" && |items| < MAX_ENVELOPE_ITEMS && all == Prepend(items, ParseItems(codec, text, |items|))
    ensures r.Err? ==> all == r
    ensures r.Ok? ==> all == Prepend(r.value, ParseItems(codec, rest, |r.value|)) && |rest| < |text|
  {
    var item, more := NextItem(codec, text, |items|);
    rest := more;
    if item.Err? {
      return Err(item.error), rest;
    }
    if item.value.Some? {
      PrependCons(items, item.value.value, ParseItems(codec, rest, |items| + 1));
      return Ok(items + [item.value.value]), rest;
    }
    r := Ok(items);
  }

  lemma {:induction false} NoItemsLeft(codec: Codec, text: string, n: nat)
    requires text == "" || n >= MAX_ENVELOPE_ITEMS
    ensures ParseItems(codec, text, n) == Ok([])
  {
  }

  /** The loop over the items. */
  method ReadItems(codec: Codec, text: string) returns (r: Result<seq<Item>>)
    ensures r == ParseItems(codec, text, 0)
  {
    var rest := text;
    var items: seq<Item> := [];
    ghost var all := ParseItems(codec, text, 0);
    PrependNothing(all);
    while |rest| > 0 && |items| < MAX_ENVELOPE_ITEMS
      invariant all == Prepend(items, ParseItems(codec, rest, |items|))
      decreases |rest|
    {
      var grown, more := AppendItem(codec, rest, items, all);
      if grown.Err? {
        return grown;
      }
      items, rest := grown.value, more;
    }
    NoItemsLeft(codec, rest, |items|);
    assert items + [] == items;
    r := Ok(items);
  }

  method ParseEnvelope(codec: Codec, data: string) returns (r: Result<Envelope>)
    ensures r == Parse(codec, data)
  {
    if |data| == 0 {
      return Err("empty envelope");
    }
    var (headerLine, rest) := NextLine(data);
    var header := Header("");
    if |headerLine| > 0 {
      var h := codec.readHeader(headerLine);
      if h.None? {
        return Err("envelope header");
      }
      header := h.value;
    }
    var items := ReadItems(codec, rest);
    if items.Err? {
      return Err(items.error);
    }
    r := Ok(Envelope(header, items.value));
  }

  // ---- payloads are slices ----

  /** Gap, payload, gap, payload, ..., gap. */
  function Woven(gaps: seq<string>, items: seq<Item>): string
    requires |gaps| == |items| + 1
  {
    if items == [] then gaps[0] else gaps[0] + items[0].payload + Woven(gaps[1..], items[1..])
  }

  lemma {:induction false} WovenAfter(x: string, gaps: seq<string>, items: seq<Item>)
    requires |gaps| == |items| + 1
    ensures Woven([x + gaps[0]] + gaps[1..], items) == x + Woven(gaps, items)
  {
    assert ([x + gaps[0]] + gaps[1..])[1..] == gaps[1..];
    if items != [] {
      var p, rest := items[0].payload, Woven(gaps[1..], items[1..]);
      assert x + (gaps[0] + p + rest) == (x + gaps[0]) + p + rest;
    }
  }

  lemma {:induction false} WovenCons(gap: string, item: Item, gaps: seq<string>, items: seq<Item>)
    requires |gaps| == |items| + 1
    ensures Woven([gap] + gaps, [item] + items) == gap + item.payload + Woven(gaps, items)
  {
    assert ([gap] + gaps)[1..] == gaps && ([item] + items)[1..] == items;
  }

  /** What one round consumes: the framing before the payload, the payload, and the framing after it. */
  lemma {:induction false} RoundParts(codec: Codec, text: string)
    requires text != ""
    ensures var r := ReadItem(codec, text);
            && (r.Blank? ==> text == text[..r.used] + text[r.used..])
            && (r.Framed? ==> r.at + |r.item.payload| <= r.used
                              && text == text[..r.at] + r.item.payload
                                  + (text[r.at + |r.item.payload|..r.used] + text[r.used..]))
  {
    PayloadIsConsumed(codec, text);
  }

  lemma {:induction false} ParseRound(codec: Codec, text: string, n: nat)
    requires text != "" && n < MAX_ENVELOPE_ITEMS && ParseItems(codec, text, n).Ok?
    ensures var r := ReadItem(codec, text);
            && (r.Blank? ==> ParseItems(codec, text, n) == ParseItems(codec, text[r.used..], n))
            && (r.Framed? ==> ParseItems(codec, text, n) == Cons(r.item, ParseItems(codec, text[r.used..], n + 1)))
            && !r.Bad?
  {
  }

  /** Adding one round in front of a woven remainder. */
  lemma {:induction false} WovenRound(codec: Codec, text: string, items: seq<Item>, left: seq<Item>, gaps: seq<string>)
      returns (all: seq<string>)
    requires text != ""
    requires var r := ReadItem(codec, text);
             !r.Bad? && |gaps| == |left| + 1 && text[r.used..] == Woven(gaps, left) && items == if r.Framed?
                 then [r.item] + left else left
    ensures |all| == |items| + 1 && text == Woven(all, items)
  {
    var r := ReadItem(codec, text);
    RoundParts(codec, text);
    if r.Blank? {
      WovenAfter(text[..r.used], gaps, left);
      all := [text[..r.used] + gaps[0]] + gaps[1..];
    } else {
      var after := text[r.at + |r.item.payload|..r.used];
      WovenAfter(after, gaps, left);
      all := [after + gaps[0]] + gaps[1..];
      WovenCons(text[..r.at], r.item, all, left);
      all := [text[..r.at]] + all;
    }
  }

  /** The payloads are disjoint slices of the text, in order: it is the payloads with the framing between them. */
  lemma {:induction false} PayloadsAreSlices(codec: Codec, text: string, n: nat) returns (gaps: seq<string>)
    requires ParseItems(codec, text, n).Ok?
    ensures |gaps| == |ParseItems(codec, text, n).value| + 1 && text == Woven(gaps, ParseItems(codec, text, n).value)
    decreases |text|
  {
    if text == "" || n >= MAX_ENVELOPE_ITEMS {
      NoItemsLeft(codec, text, n);
      gaps := [text];
    } else {
      ParseRound(codec, text, n);
      var r := ReadItem(codec, text);
      var m := if r.Blank? then n else n + 1;
      var left := ParseItems(codec, text[r.used..], m).value;
      gaps := PayloadsAreSlices(codec, text[r.used..], m);
      gaps := WovenRound(codec, text, ParseItems(codec, text, n).value, left, gaps);
    }
  }

  lemma {:induction false} AtMost1000Items(codec: Codec, text: string, n: nat)
    requires n <= MAX_ENVELOPE_ITEMS && ParseItems(codec, text, n).Ok?
    ensures n + |ParseItems(codec, text, n).value| <= MAX_ENVELOPE_ITEMS
    decreases |text|
  {
    if text != "" && n < MAX_ENVELOPE_ITEMS {
      var r := ReadItem(codec, text);
      AtMost1000Items(codec, text[r.used..], if r.Blank? then n else n + 1);
    }
  }

  /** Of a whole envelope too: the header line is part of the first gap; and there are at most 1000 items. */
  lemma {:induction false} EnvelopeIsWoven(codec: Codec, data: string) returns (gaps: seq<string>)
    requires Parse(codec, data).Ok?
    ensures var items := Parse(codec, data).value.items;
            |items| <= 1000 && |gaps| == |items| + 1 && data == Woven(gaps, items)
  {
    var items := Parse(codec, data).value.items;
    var head, rest := data[..LineUse(data)], data[LineUse(data)..];
    AtMost1000Items(codec, rest, 0);
    gaps := PayloadsAreSlices(codec, rest, 0);
    WovenAfter(head, gaps, items);
    gaps := [head + gaps[0]] + gaps[1..];
  }

  // ---- framing and the round trip ----

  /** Header lines are read back, and are non-empty single lines. */
  ghost predicate Lawful(codec: Codec) {
    && (forall h ::
          && codec.readHeader(codec.writeHeader(h)) == Some(h)
          && codec.writeHeader(h) != "" && '\n' !in codec.writeHeader(h))
    && (forall h ::
          && codec.readItem(codec.writeItem(h)) == Some(h)
          && codec.writeItem(h) != "" && '\n' !in codec.writeItem(h))
  }

  /** A typed item whose length prefix is its payload's, or that has none and no newline in the payload. */
  predicate Frameable(item: Item) {
    item.header.kind != "" && if item.header.length > 0 then |item.payload| == item.header.length
        else '\n' !in item.payload
  }

  predicate AllFrameable(items: seq<Item>) { items == [] || (Frameable(items[0]) && AllFrameable(items[1..])) }

  function EncodeItem(codec: Codec, item: Item): string { codec.writeItem(item.header) + ['\n'] + item.payload }

  /** Every item ends with a newline; the last one need not. */
  function EncodeItems(codec: Codec, items: seq<Item>, closed: bool): string {
    if items == [] then ""
    else if |items| == 1 && !closed then EncodeItem(codec, items[0])
    else EncodeItem(codec, items[0]) + ['\n'] + EncodeItems(codec, items[1..], closed)
  }

  function Frame(codec: Codec, h: Header, items: seq<Item>, closed: bool): string {
    codec.writeHeader(h) + ['\n'] + EncodeItems(codec, items, closed)
  }

  lemma {:induction false} EndOfLine(line: string, more: string)
    requires '\n' !in line
    ensures LineEnd(line + ['\n'] + more) == |line| && LineEnd(line) == |line|
    ensures NextLine(line + ['\n'] + more) == (line, more) && NextLine(line) == (line, "")
  {
    var s := line + ['\n'] + more;
    assert s[|line|] == '\n' && s[..|line|] == line && s[|line| + 1..] == more;
    FirstNewline(s, |line|);
    FirstNewline(line, |line|);
    assert line[..|line|] == line && line[|line|..] == "";
  }

  lemma {:induction false} LineHasNoNewline(s: string)
    ensures '\n' !in s[..LineEnd(s)] && (LineEnd(s) < |s| ==> s[LineEnd(s)] == '\n')
  {
    if s != "" && s[0] != '\n' {
      LineHasNoNewline(s[1..]);
      assert s[..LineEnd(s)] == [s[0]] + s[1..][..LineEnd(s[1..])];
    }
  }

  lemma {:induction false} FirstNewline(s: string, k: nat)
    requires k <= |s| && (k < |s| ==> s[k] == '\n') && '\n' !in s[..k]
    ensures LineEnd(s) == k
  {
    if k == 0 {
    } else {
      assert s[0] in s[..k] && s[1..][..k - 1] == s[..k][1..];
      FirstNewline(s[1..], k - 1);
    }
  }

  /** A framed item's payload is read up to its end, whether `more` follows a newline or nothing follows. */
  lemma {:induction false} PayloadReads(item: Item, head: string, more: string)
    requires Frameable(item) && head != ""
    ensures var text := head + (item.payload + ['\n'] + more);
            var r := ReadPayload(item.header, text, |head|); r.Framed? && r.item == item && text[r.used..] == more
    ensures var text := head + item.payload; var r := ReadPayload(item.header, text, |head|);
            r.Framed? && r.item == item && r.used == |text|
  {
    var p, tail := item.payload, item.payload + ['\n'] + more;
    var text := head + tail;
    assert text[|head|..] == tail && (head + p)[|head|..] == p;
    if item.header.length > 0 {
      assert text[|head|..|head| + |p|] == p && text[|head| + |p|] == '\n' && text[|head| + |p| + 1..] == more;
    } else {
      EndOfLine(p, more);
      assert text[|head| + |p| + 1..] == more;
    }
  }

  /** One framed item is read back, with a newline and anything after it, or at the end of the text. */
  lemma {:induction false} ItemReads(codec: Codec, item: Item, more: string)
    requires Lawful(codec) && Frameable(item)
    ensures var text := EncodeItem(codec, item) + ['\n'] + more;
            var r := ReadItem(codec, text); r.Framed? && r.item == item && text[r.used..] == more
    ensures var text := EncodeItem(codec, item); var r := ReadItem(codec, text);
            r.Framed? && r.item == item && text[r.used..] == ""
  {
    var line, tail := codec.writeItem(item.header), item.payload + ['\n'] + more;
    assert EncodeItem(codec, item) + ['\n'] + more == line + ['\n'] + tail;
    EndOfLine(line, tail);
    EndOfLine(line, item.payload);
    PayloadReads(item, line + ['\n'], more);
  }

  function FirstUpTo(items: seq<Item>, n: nat): seq<Item> { if |items| <= n then items else items[..n] }

  lemma {:induction false} FirstItem(codec: Codec, items: seq<Item>, closed: bool, n: nat)
    requires Lawful(codec) && n < MAX_ENVELOPE_ITEMS && items != [] && Frameable(items[0])
    ensures ParseItems(codec, EncodeItems(codec, items, closed), n)
            == Cons(items[0], ParseItems(codec, EncodeItems(codec, items[1..], closed), n + 1))
  {
    ItemReads(codec, items[0], EncodeItems(codec, items[1..], closed));
  }

  lemma {:induction false} ItemsRoundTrip(codec: Codec, items: seq<Item>, closed: bool, n: nat)
    requires Lawful(codec) && n <= MAX_ENVELOPE_ITEMS && AllFrameable(items)
    ensures ParseItems(codec, EncodeItems(codec, items, closed), n) == Ok(FirstUpTo(items, MAX_ENVELOPE_ITEMS - n))
    decreases |items|
  {
    if items == [] || n == MAX_ENVELOPE_ITEMS {
      NothingMore(codec, items, closed, n);
    } else {
      FirstItem(codec, items, closed, n);
      ItemsRoundTrip(codec, items[1..], closed, n + 1);
      ConsFirst(items, MAX_ENVELOPE_ITEMS - n);
    }
  }

  lemma {:induction false} NothingMore(codec: Codec, items: seq<Item>, closed: bool, n: nat)
    requires (items == [] && n <= MAX_ENVELOPE_ITEMS) || n == MAX_ENVELOPE_ITEMS
    ensures ParseItems(codec, EncodeItems(codec, items, closed), n) == Ok(FirstUpTo(items, MAX_ENVELOPE_ITEMS - n))
  {
    assert items == [] || items[..0] == [];
  }

  lemma {:induction false} ConsFirst(items: seq<Item>, k: nat)
    requires items != [] && k > 0
    ensures Cons(items[0], Ok(FirstUpTo(items[1..], k - 1))) == Ok(FirstUpTo(items, k))
  {
    assert [items[0]] + FirstUpTo(items[1..], k - 1) == FirstUpTo(items, k);
  }

  /** Parsing a framed envelope returns its header and items, the first 1000 of a longer list. */
  lemma {:induction false} RoundTrip(codec: Codec, h: Header, items: seq<Item>, closed: bool)
    requires Lawful(codec) && AllFrameable(items)
    ensures Parse(codec, Frame(codec, h, items, closed)) ==
            Ok(Envelope(h, if |items| <= 1000 then items else items[..1000]))
  {
    EndOfLine(codec.writeHeader(h), EncodeItems(codec, items, closed));
    ItemsRoundTrip(codec, items, closed, 0);
  }

  lemma {:induction false} OneItemText(codec: Codec, item: Item)
    ensures EncodeItems(codec, [item], true) == codec.writeItem(item.header) + ['\n'] + (item.payload + ['\n'])
  {
    var line, p := codec.writeItem(item.header), item.payload;
    assert EncodeItems(codec, [item][1..], true) == "";
    assert EncodeItem(codec, item) + ['\n'] == line + ['\n'] + (p + ['\n']);
  }

  /** A wrong length prefix, a missing type or a newline in an unprefixed payload gives no item back, or another one. */
  lemma {:induction false} UnframeableIsLost(codec: Codec, item: Item)
    requires Lawful(codec) && !Frameable(item)
    ensures ParseItems(codec, EncodeItems(codec, [item], true), 0) != Ok([item])
  {
    OneItemText(codec, item);
    EndOfLine(codec.writeItem(item.header), item.payload + ['\n']);
    LineHasNoNewline(item.payload + ['\n']);
  }

  /** One item survives framing exactly when its prefix is right, or its payload has no newline. */
  lemma {:induction false} SurvivesExactlyWhen(codec: Codec, h: Header, item: Item)
    requires Lawful(codec)
    ensures Parse(codec, Frame(codec, h, [item], true)) == Ok(Envelope(h, [item])) <==> Frameable(item)
  {
    if Frameable(item) {
      RoundTrip(codec, h, [item], true);
    } else {
      EndOfLine(codec.writeHeader(h), EncodeItems(codec, [item], true));
      UnframeableIsLost(codec, item);
    }
  }

  // ---- malformed envelopes ----

  /** Framed items in front of any text. */
  function InFront(codec: Codec, items: seq<Item>, rest: string): string {
    if items == [] then rest else EncodeItem(codec, items[0]) + ['\n'] + InFront(codec, items[1..], rest)
  }

  lemma {:induction false} InFrontIs(codec: Codec, items: seq<Item>, rest: string)
    ensures InFront(codec, items, rest) == EncodeItems(codec, items, true) + rest
  {
    if items == [] {
    } else {
      InFrontIs(codec, items[1..], rest);
      Appended(EncodeItem(codec, items[0]) + ['\n'], EncodeItems(codec, items[1..], true), rest);
    }
  }

  lemma Appended(a: string, b: string, c: string)
    ensures a + (b + c) == a + b + c
  {
  }

  lemma {:induction false} ItemThenText(codec: Codec, item: Item, more: string, n: nat)
    requires Lawful(codec) && Frameable(item) && n < MAX_ENVELOPE_ITEMS
    ensures ParseItems(codec, EncodeItem(codec, item) + ['\n'] + more, n) == Cons(item, ParseItems(codec, more, n + 1))
  {
    ItemReads(codec, item, more);
  }

  /** An error after any framed items is an error of the whole text. */
  lemma {:induction false} ErrorAfterItems(codec: Codec, items: seq<Item>, rest: string, n: nat, last: nat)
    requires Lawful(codec) && AllFrameable(items) && last == n + |items| <= MAX_ENVELOPE_ITEMS
    requires ParseItems(codec, rest, last).Err?
    ensures ParseItems(codec, InFront(codec, items, rest), n).Err?
    decreases |items|
  {
    if items != [] {
      ErrorAfterItems(codec, items[1..], rest, n + 1, last);
      ItemThenText(codec, items[0], InFront(codec, items[1..], rest), n);
    }
  }

  /** An item header that cannot be read, names no type, or declares more bytes than are left. */
  predicate Broken(codec: Codec, line: string, left: nat) {
    match codec.readItem(line)
    case None => true
    case Some(ih) => ih.kind == "" || ih.length > left
  }

  lemma {:induction false} BrokenItem(codec: Codec, line: string, tail: string, n: nat)
    requires line != "" && '\n' !in line && Broken(codec, line, |tail|) && n < MAX_ENVELOPE_ITEMS
    ensures ParseItems(codec, line + ['\n'] + tail, n).Err?
  {
    EndOfLine(line, tail);
  }

  /** One of the first 1000 items with a broken header fails the envelope, whatever precedes and follows it. */
  lemma {:induction false} BrokenItemFails(codec: Codec, h: Header, items: seq<Item>, line: string, tail: string)
    requires Lawful(codec) && AllFrameable(items) && |items| < 1000
    requires line != "" && '\n' !in line && Broken(codec, line, |tail|)
    ensures Parse(codec, Frame(codec, h, items, true) + (line + ['\n'] + tail)).Err?
  {
    var rest := line + ['\n'] + tail;
    var body := EncodeItems(codec, items, true) + rest;
    assert Frame(codec, h, items, true) + rest == codec.writeHeader(h) + ['\n'] + body;
    EndOfLine(codec.writeHeader(h), body);
    BrokenItem(codec, line, tail, |items|);
    InFrontIs(codec, items, rest);
    ErrorAfterItems(codec, items, rest, 0, |items|);
  }

  /** So do no text at all and a header line that cannot be read; an empty header line is none. */
  lemma {:induction false} HeaderLineDecides(codec: Codec, line: string, rest: string)
    requires '\n' !in line
    ensures Parse(codec, "").Err?
    ensures line != "" && codec.readHeader(line).None? ==> Parse(codec, line + ['\n'] + rest).Err?
    ensures Parse(codec, line + ['\n'] + rest).Ok? ==>
              Parse(codec, line + ['\n'] + rest).value.header ==
              if line == "" then Header("") else codec.readHeader(line).value
  {
    EndOfLine(line, rest);
  }
}
