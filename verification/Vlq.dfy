/**
 Base64 VLQ fields as the mappings decoder reads them: an int64 accumulator and a shift that
 may not pass 60. The encoder is the one of ECMA-426, section "Base64 VLQ".
 */
module Vlq {
  import opened Wrappers
  import opened Powers

  /** The value of a Base64 character, -1 for any other byte. */
  function Base64Index(c: char): int {
    if 'A' <= c <= 'Z' then c as int - 'A' as int
    else if 'a' <= c <= 'z' then c as int - 'a' as int + 26
    else if '0' <= c <= '9' then c as int - '0' as int + 52
    else if c == '+' then 62
    else if c == '/' then 63
    else -1
  }

  function Base64Char(d: nat): (c: char)
    requires d < 64
    ensures Base64Index(c) == d
  {
    if d < 26 then (d + 'A' as int) as char
    else if d < 52 then (d - 26 + 'a' as int) as char
    else if d < 62 then (d - 52 + '0' as int) as char
    else if d == 62 then '+' else '/'
  }

  /** The sign is the lowest bit; the shift right is arithmetic. */
  function Signed(v: int): int { if v % 2 == 0 then v / 2 else -(v / 2) }

  /**
   value |= int64(d & 31) << shift: the digits occupy disjoint bits, so the or is a sum; only the last digit can wrap.
   */
  function WithDigit(value: int, d: nat, shift: nat): int { Wrap64(value + d % 32 * Pow2(shift)) }

  function Cons(field: int, rest: Result<seq<int>>): Result<seq<int>> {
    match rest
    case Ok(fields) => Ok([field] + fields)
    case Err(m) => Err(m)
  }

  /**
   The fields of `s` when `value` holds the digits of the current field so far and `shift` their bits.
   */
  function DecodeFields(s: string, value: int, shift: nat): Result<seq<int>>
    decreases |s|
  {
    if s == "" then (if shift != 0 then Err("truncated VLQ segment") else Ok([])) else
    var d := Base64Index(s[0]);
    if d < 0 then Err("invalid base64 char") else
    var v := WithDigit(value, d, shift);
    if d >= 32 then
      if shift + 5 > 60 then Err("VLQ value too large") else DecodeFields(s[1..], v, shift + 5)
    else Cons(Signed(v), DecodeFields(s[1..], 0, 0))
  }

  function Prepend(fields: seq<int>, rest: Result<seq<int>>): Result<seq<int>> {
    match rest
    case Ok(more) => Ok(fields + more)
    case Err(m) => Err(m)
  }

  lemma PrependNothing(r: Result<seq<int>>)
    ensures Prepend([], r) == r
  {
    assert r.Ok? ==> [] + r.value == r.value;
  }

  lemma PrependOneMore(out: seq<int>, v: int, rest: Result<seq<int>>)
    ensures Prepend(out, Cons(v, rest)) == Prepend(out + [v], rest)
  {
    assert rest.Ok? ==> out + ([v] + rest.value) == (out + [v]) + rest.value;
  }

  lemma DigitStep(s: string, i: nat, value: int, shift: nat)
    requires i < |s|
    ensures var d, rest := Base64Index(s[i]), s[i + 1..];
            DecodeFields(s[i..], value, shift) ==
              if d < 0 then Err("invalid base64 char")
              else if d < 32 then Cons(Signed(WithDigit(value, d, shift)), DecodeFields(rest, 0, 0))
              else if shift + 5 > 60 then Err("VLQ value too large")
              else DecodeFields(rest, WithDigit(value, d, shift), shift + 5)
  {
    assert s[i..][1..] == s[i + 1..];
  }

  /** Decodes one comma-free segment with a running value and shift. */
  method DecodeVLQSegment(s: string) returns (r: Result<seq<int>>)
    ensures r == DecodeFields(s, 0, 0)
  {
    var out: seq<int> := [];
    var value, shift := 0, 0;
    var i := 0;
    PrependNothing(DecodeFields(s, 0, 0));
    assert s[0..] == s;
    while i < |s|
      invariant i <= |s|
      invariant DecodeFields(s, 0, 0) == Prepend(out, DecodeFields(s[i..], value, shift))
    {
      DigitStep(s, i, value, shift);
      var d := Base64Index(s[i]);
      if d < 0 {
        return Err("invalid base64 char");
      }
      value := WithDigit(value, d, shift);
      if d >= 32 {
        shift := shift + 5;
        if shift > 60 {
          return Err("VLQ value too large");
        }
      } else {
        var v := Signed(value);
        PrependOneMore(out, v, DecodeFields(s[i + 1..], 0, 0));
        out := out + [v];
        value, shift := 0, 0;
      }
      i := i + 1;
    }
    assert s[i..] == "" && out + [] == out;
    if shift != 0 {
      return Err("truncated VLQ segment");
    }
    r := Ok(out);
  }

  // ---- the encoder and the round trip ----

  function EncodeDigits(v: nat): string {
    if v < 32 then [Base64Char(v)] else [Base64Char(v % 32 + 32)] + EncodeDigits(v / 32)
  }

  function Abs(x: int): nat { if x < 0 then -x else x }

  function Magnitude(x: int): nat { 2 * Abs(x) + (if x < 0 then 1 else 0) }

  function EncodeField(x: int): string { EncodeDigits(Magnitude(x)) }

  function EncodeFields(fields: seq<int>): string {
    if fields == [] then "" else EncodeField(fields[0]) + EncodeFields(fields[1..])
  }

  lemma Pow2Plus5(shift: nat)
    ensures Pow2(shift + 5) == 32 * Pow2(shift)
  {
    assert Pow2(shift + 2) == 4 * Pow2(shift);
    assert Pow2(shift + 4) == 4 * Pow2(shift + 2);
  }

  lemma Pow2Of60()
    ensures Pow2(60) == 0x1000_0000_0000_0000
  {
    Pow2Plus5(0);
    Pow2Plus5(5);
    Pow2Adds(10, 10);
    Pow2Adds(20, 20);
    Pow2Adds(20, 40);
  }

  /** A number of at least 32 that still fits 65 bits at this shift leaves room for five more. */
  lemma RoomForFive(v: nat, shift: nat)
    requires v >= 32 && v * Pow2(shift) < 2 * TWO64
    ensures shift + 5 <= 60 || shift % 5 != 0
    ensures Pow2(shift) < Pow2(60) && shift < 60
    ensures v / 32 * Pow2(shift + 5) + v % 32 * Pow2(shift) == v * Pow2(shift)
  {
    Pow2Of60();
    Pow2Monotone(0, shift);
    assert 32 * Pow2(shift) <= v * Pow2(shift);
    if shift >= 60 {
      Pow2Monotone(60, shift);
    }
    Pow2Plus5(shift);
    Split(v / 32, v % 32, Pow2(shift));
    assert v == v / 32 * 32 + v % 32;
  }

  lemma Split(q: nat, r: nat, w: nat)
    ensures q * (32 * w) + r * w == (q * 32 + r) * w
  {
  }

  lemma LastDigit(d: nat, rest: string, value: int, shift: nat)
    requires d < 32
    ensures DecodeFields([Base64Char(d)] + rest, value, shift) ==
            Cons(Signed(WithDigit(value, d, shift)), DecodeFields(rest, 0, 0))
  {
    assert ([Base64Char(d)] + rest)[1..] == rest;
  }

  lemma ContinuedDigit(d: nat, rest: string, value: int, shift: nat)
    requires d < 32 && shift + 5 <= 60
    ensures DecodeFields([Base64Char(d + 32)] + rest, value, shift) ==
            DecodeFields(rest, WithDigit(value, d + 32, shift), shift + 5)
  {
    assert ([Base64Char(d + 32)] + rest)[1..] == rest;
  }

  lemma DigitTimes(d: nat, w: nat)
    requires d < 32
    ensures d * w <= 31 * w
  {
    assert 0 <= (31 - d) * w;
  }

  /** Adding a digit below 32 to a value of `shift` bits gives one of shift + 5 bits, well inside an int64. */
  lemma NextValue(d: nat, value: nat, shift: nat)
    requires d < 32 && value < Pow2(shift) && shift + 5 <= 60
    ensures value + d * Pow2(shift) < Pow2(shift + 5) <= TWO62
  {
    assert Pow2(shift + 5) == 32 * Pow2(shift) by { Pow2Plus5(shift); }
    DigitTimes(d, Pow2(shift));
    assert Pow2(shift + 5) <= TWO62 by {
      Pow2Of60();
      Pow2Monotone(shift + 5, 60);
    }
  }

  lemma DigitAdds(value: nat, d: nat, shift: nat)
    requires d < 32 && value + d * Pow2(shift) < TWO62
    ensures WithDigit(value, d + 32, shift) == value + d * Pow2(shift)
  {
    assert (d + 32) % 32 == d;
    assert 0 <= d * Pow2(shift);
  }

  /** The digit leaves `v`: what it was worth and what stays add up to what there was. */
  lemma DigitLeaves(v: nat, shift: nat)
    requires shift % 5 == 0 && v >= 32 && v * Pow2(shift) < 2 * TWO64
    ensures shift + 5 <= 60 && v / 32 * Pow2(shift + 5) + v % 32 * Pow2(shift) == v * Pow2(shift)
    ensures 0 <= v % 32 * Pow2(shift) && v / 32 * Pow2(shift + 5) < 2 * TWO64
  {
    RoomForFive(v, shift);
  }

  /** And enters `value`. */
  lemma DigitEnters(d: nat, value: nat, shift: nat)
    requires d < 32 && value < Pow2(shift) && shift + 5 <= 60
    ensures var next := value + d * Pow2(shift); next < Pow2(shift + 5) && WithDigit(value, d + 32, shift) == next
  {
    NextValue(d, value, shift);
    DigitAdds(value, d, shift);
  }

  /** Digits decode to the number they encode, wrapped to 64 bits, as long as there are at most thirteen. */
  lemma {:induction false} DigitsDecode(v: nat, value: nat, shift: nat, total: int, rest: string)
    requires shift % 5 == 0 && shift <= 60 && value < Pow2(shift) && v * Pow2(shift) < 2 * TWO64
    requires total == value + v * Pow2(shift)
    ensures DecodeFields(EncodeDigits(v) + rest, value, shift) == Cons(Signed(Wrap64(total)), DecodeFields(rest, 0, 0))
    decreases v
  {
    if v < 32 {
      OnlyDigit(v, value, shift, rest);
    } else {
      var next := value + v % 32 * Pow2(shift);
      DigitLeaves(v, shift);
      DigitEnters(v % 32, value, shift);
      FirstDigit(v, value, shift, rest);
      DigitsDecode(v / 32, next, shift + 5, total, rest);
    }
  }

  lemma OnlyDigit(v: nat, value: nat, shift: nat, rest: string)
    requires v < 32
    ensures DecodeFields(EncodeDigits(v) + rest, value, shift) ==
            Cons(Signed(Wrap64(value + v * Pow2(shift))), DecodeFields(rest, 0, 0))
  {
    assert EncodeDigits(v) == [Base64Char(v)] && v % 32 == v;
    LastDigit(v, rest, value, shift);
  }

  lemma FirstDigit(v: nat, value: nat, shift: nat, rest: string)
    requires v >= 32 && shift + 5 <= 60
    ensures DecodeFields(EncodeDigits(v) + rest, value, shift)
            == DecodeFields(EncodeDigits(v / 32) + rest, WithDigit(value, v % 32 + 32, shift), shift + 5)
  {
    assert EncodeDigits(v) + rest == [Base64Char(v % 32 + 32)] + (EncodeDigits(v / 32) + rest);
    ContinuedDigit(v % 32, EncodeDigits(v / 32) + rest, value, shift);
  }

  /** A field of magnitude below 2^62 survives, whatever follows it. */
  lemma FieldDecodes(x: int, rest: string)
    requires Abs(x) < TWO62
    ensures DecodeFields(EncodeField(x) + rest, 0, 0) == Cons(x, DecodeFields(rest, 0, 0))
  {
    DigitsDecode(Magnitude(x), 0, 0, Magnitude(x), rest);
  }

  lemma {:induction false} FieldsDecode(fields: seq<int>)
    requires forall i :: 0 <= i < |fields| ==> Abs(fields[i]) < TWO62
    ensures DecodeFields(EncodeFields(fields), 0, 0) == Ok(fields)
  {
    if fields == [] {
    } else {
      FieldsDecode(fields[1..]);
      FieldDecodes(fields[0], EncodeFields(fields[1..]));
      assert [fields[0]] + fields[1..] == fields;
    }
  }

  predicate AtMost62(fields: seq<int>) {
    forall x :: x in fields ==> Abs(x) <= TWO62
  }

  lemma SignedIsBounded(value: int)
    requires -TWO63 <= value < TWO63
    ensures Abs(Signed(value)) <= TWO62
  {
  }

  /** Whatever is decoded has magnitude at most 2^62. */
  lemma {:induction false} DecodedFieldsAreBounded(s: string, value: int, shift: nat)
    ensures DecodeFields(s, value, shift).Ok? ==> AtMost62(DecodeFields(s, value, shift).value)
    decreases |s|
  {
    if s != "" && Base64Index(s[0]) >= 0 {
      var v := WithDigit(value, Base64Index(s[0]), shift);
      if Base64Index(s[0]) >= 32 {
        if shift + 5 <= 60 {
          DecodedFieldsAreBounded(s[1..], v, shift + 5);
        }
      } else {
        DecodedFieldsAreBounded(s[1..], 0, 0);
        SignedIsBounded(v);
        var rest := DecodeFields(s[1..], 0, 0);
        assert DecodeFields(s, value, shift) == Cons(Signed(v), rest);
        assert rest.Ok? ==> forall x :: x in [Signed(v)] + rest.value ==> x == Signed(v) || x in rest.value;
      }
    }
  }

  lemma LoneFieldDecodes(x: int)
    requires Abs(x) <= TWO62
    ensures DecodeFields(EncodeField(x), 0, 0) == Ok([Signed(Wrap64(Magnitude(x)))])
  {
    assert EncodeField(x) + "" == EncodeField(x);
    assert Pow2(0) == 1 && Magnitude(x) * Pow2(0) == Magnitude(x);
    DigitsDecode(Magnitude(x), 0, 0, Magnitude(x), "");
    assert DecodeFields("", 0, 0) == Ok([]);
    assert [Signed(Wrap64(Magnitude(x)))] + [] == [Signed(Wrap64(Magnitude(x)))];
  }

  lemma SurvivesExactly(x: int)
    requires Abs(x) <= TWO62
    ensures Signed(Wrap64(Magnitude(x))) == x <==> Abs(x) < TWO62
  {
  }

  /** A field comes back as itself exactly when its magnitude is below 2^62. */
  lemma RoundTripExactly(x: int)
    ensures DecodeFields(EncodeField(x), 0, 0) == Ok([x]) <==> Abs(x) < TWO62
  {
    if Abs(x) <= TWO62 {
      LoneFieldDecodes(x);
      SurvivesExactly(x);
      var y := Signed(Wrap64(Magnitude(x)));
      assert [y] == [x] ==> [y][0] == [x][0];
    } else {
      DecodedFieldsAreBounded(EncodeField(x), 0, 0);
      assert x in [x];
    }
  }

  /** Encoded fields use Base64 characters only, and at least one. */
  lemma {:induction false} DigitsAreBase64(v: nat)
    ensures EncodeDigits(v) != "" && forall i :: 0 <= i < |EncodeDigits(v)| ==> Base64Index(EncodeDigits(v)[i]) >= 0
    decreases v
  {
    if v >= 32 {
      DigitsAreBase64(v / 32);
    }
  }

  lemma {:induction false} FieldsAreBase64(fields: seq<int>)
    ensures fields != [] ==> EncodeFields(fields) != ""
    ensures forall i :: 0 <= i < |EncodeFields(fields)| ==> Base64Index(EncodeFields(fields)[i]) >= 0
  {
    if fields == [] {
    } else {
      DigitsAreBase64(Magnitude(fields[0]));
      FieldsAreBase64(fields[1..]);
    }
  }

  // ---- what a field is worth ----

  predicate Base64(c: char) {
    'A' <= c <= 'Z' || 'a' <= c <= 'z' || '0' <= c <= '9' || c == '+' || c == '/'
  }

  predicate Follows(c: char, d: char) { d as int == c as int + 1 && d !in {'A', 'a', '0', '+', '/'} }

  /** The alphabet in order: upper case from 0, lower case from 26, figures from 52, then plus and slash. */
  lemma AlphabetIs(c: char, d: char)
    ensures Base64(c) <==> Base64Index(c) >= 0
    ensures Base64Index('A') == 0 && Base64Index('a') == 26 && Base64Index('0') == 52 && Base64Index('+') == 62
            && Base64Index('/') == 63
    ensures Base64(c) && Base64(d) && Follows(c, d) ==> Base64Index(d) == Base64Index(c) + 1
  {
  }

  /** Digits of one field: all but the last are 32 or more. */
  predicate OneField(s: string) {
    s != "" && Base64(s[0]) && if |s| == 1 then Base64Index(s[0]) < 32 else Base64Index(s[0]) >= 32 && OneField(s[1..])
  }

  /** The number the digits make up, the first one least, five bits each. */
  function Worth(s: string): (n: int) {
    if s == "" then 0 else Base64Index(s[0]) % 32 + 32 * Worth(s[1..])
  }

  lemma WorthSplits(d: int, w: int, p: int, q: int)
    requires q == 32 * p
    ensures (d + 32 * w) * p == d * p + w * q
  {
  }

  lemma {:induction false} LastIsWorth(s: string, value: nat, shift: nat)
    requires OneField(s) && |s| == 1 && shift + 5 <= 60 && value < Pow2(shift)
    ensures DecodeFields(s, value, shift) == Ok([Signed(value + Worth(s) * Pow2(shift))])
  {
    var d := Base64Index(s[0]);
    LoneDigit(s, value, shift);
    assert s[1..] == "" && Worth(s) == d;
    LowDigitAdds(d, value, shift);
  }

  lemma {:induction false} LowDigitAdds(d: nat, value: nat, shift: nat)
    requires d < 32 && value < Pow2(shift) && shift + 5 <= 60
    ensures WithDigit(value, d, shift) == value + d * Pow2(shift)
  {
    NextValue(d, value, shift);
    assert 0 <= d * Pow2(shift);
  }

  lemma {:induction false} LoneDigit(s: string, value: nat, shift: nat)
    requires |s| == 1 && 0 <= Base64Index(s[0]) < 32
    ensures DecodeFields(s, value, shift) == Ok([Signed(WithDigit(value, Base64Index(s[0]), shift))])
  {
    var v := Signed(WithDigit(value, Base64Index(s[0]), shift));
    assert s[1..] == "" && [v] + [] == [v];
  }

  /** A digit that is not the last. */
  lemma {:induction false} FirstOfMore(s: string, value: nat, shift: nat) returns (next: nat)
    requires OneField(s) && |s| > 1 && shift + 5 * |s| <= 60 && value < Pow2(shift)
    ensures next == value + Base64Index(s[0]) % 32 * Pow2(shift) && next < Pow2(shift + 5)
    ensures DecodeFields(s, value, shift) == DecodeFields(s[1..], next, shift + 5)
  {
    var d := Base64Index(s[0]) % 32;
    next := value + d * Pow2(shift);
    assert 0 <= d * Pow2(shift);
    DigitEnters(d, value, shift);
    assert d + 32 == Base64Index(s[0]);
  }

  lemma {:induction false} FieldIsWorth(s: string, value: nat, shift: nat, total: int)
    requires OneField(s) && shift + 5 * |s| <= 60 && value < Pow2(shift) && total == value + Worth(s) * Pow2(shift)
    ensures DecodeFields(s, value, shift) == Ok([Signed(total)])
    decreases |s|
  {
    if |s| == 1 {
      LastIsWorth(s, value, shift);
    } else {
      var next := FirstOfMore(s, value, shift);
      Pow2Plus5(shift);
      WorthSplits(Base64Index(s[0]) % 32, Worth(s[1..]), Pow2(shift), Pow2(shift + 5));
      FieldIsWorth(s[1..], next, shift + 5, total);
    }
  }

  /** A field of up to twelve digits is half what they are worth, negative when that is odd. */
  lemma {:induction false} FieldMeans(s: string)
    requires OneField(s) && |s| <= 12
    ensures var w := Worth(s); DecodeFields(s, 0, 0) == Ok([if w % 2 == 0 then w / 2 else -(w / 2)])
  {
    FieldIsWorth(s, 0, 0, Worth(s));
  }
}
