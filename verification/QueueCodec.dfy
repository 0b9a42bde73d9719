/** The wire format of queue messages, `Type|Body`.

    A string is a sequence of bytes.  Converting one to runes decodes UTF-8 and puts U+FFFD
    in place of every byte that does not belong to a well-formed sequence (section 4 of
    RFC 3629); converting runes back encodes them again.
 */
module QueueCodec {

  type byte = x: int | 0 <= x < 256
  type Bytes = seq<byte>

  const SEPARATOR: byte := 0x7C
  const REPLACEMENT: int := 0xFFFD

  datatype Message = Message(kind: Bytes, body: Bytes)

  // ---------------------------------------------------------------- UTF-8

  predicate Scalar(r: int) {
    0 <= r < 0xD800 || 0xE000 <= r <= 0x10FFFF
  }

  predicate Tail(s: Bytes, i: nat) {
    i < |s| && 0x80 <= s[i] <= 0xBF
  }

  predicate Between(s: Bytes, i: nat, lo: int, hi: int) {
    i < |s| && lo <= s[i] <= hi
  }

  /** Length of the well-formed sequence at the head of `s`, zero if there is none. */
  function Width(s: Bytes): (w: nat)
    ensures w <= |s| && w <= 4
  {
    if s == [] then 0
    else if s[0] < 0x80 then 1
    else if 0xC2 <= s[0] <= 0xDF then if Tail(s, 1) then 2 else 0
    else if 0xE0 <= s[0] <= 0xEF then
      var lo := if s[0] == 0xE0 then 0xA0 else 0x80;
      var hi := if s[0] == 0xED then 0x9F else 0xBF;
      if Between(s, 1, lo, hi) && Tail(s, 2) then 3 else 0
    else if 0xF0 <= s[0] <= 0xF4 then
      var lo := if s[0] == 0xF0 then 0x90 else 0x80;
      var hi := if s[0] == 0xF4 then 0x8F else 0xBF;
      if Between(s, 1, lo, hi) && Tail(s, 2) && Tail(s, 3) then 4 else 0
    else 0
  }

  /** Bytes consumed by one decoding step: a malformed byte is consumed alone. */
  function Consumed(s: Bytes): (w: nat)
    requires s != []
    ensures 1 <= w <= |s|
  {
    if Width(s) == 0 then 1 else Width(s)
  }

  function FirstRune(s: Bytes): int
    requires s != []
  {
    match Width(s)
    case 1 => s[0]
    case 2 => (s[0] - 0xC0) * 0x40 + (s[1] - 0x80)
    case 3 => (s[0] - 0xE0) * 0x1000 + (s[1] - 0x80) * 0x40 + (s[2] - 0x80)
    case 4 => (s[0] - 0xF0) * 0x40000 + (s[1] - 0x80) * 0x1000 + (s[2] - 0x80) * 0x40 + (s[3] - 0x80)
    case _ => REPLACEMENT
  }

  function Runes(s: Bytes): seq<int> {
    if s == [] then [] else [FirstRune(s)] + Runes(s[Consumed(s)..])
  }

  function EncodeRune(r: int): Bytes {
    if !Scalar(r) then [0xEF, 0xBF, 0xBD]
    else if r < 0x80 then [r]
    else if r < 0x800 then [0xC0 + r / 0x40, 0x80 + r % 0x40]
    else if r < 0x10000 then [0xE0 + r / 0x1000, 0x80 + r / 0x40 % 0x40, 0x80 + r % 0x40]
    else [0xF0 + r / 0x40000, 0x80 + r / 0x1000 % 0x40, 0x80 + r / 0x40 % 0x40, 0x80 + r % 0x40]
  }

  function Encode(rs: seq<int>): Bytes {
    if rs == [] then [] else EncodeRune(rs[0]) + Encode(rs[1..])
  }

  predicate ValidUtf8(s: Bytes) {
    s == [] || (Width(s) > 0 && ValidUtf8(s[Width(s)..]))
  }

  /** What is left of a string after a trip through runes. */
  function Sanitized(s: Bytes): Bytes {
    Encode(Runes(s))
  }

  function Above(x: byte, base: int): int {
    x as int - base
  }

  predicate Continues(x: byte) {
    0x80 <= x < 0xC0
  }

  /** The bytes of a scalar value, by the table of section 3 of RFC 3629: a lead byte that tells the
      length, and six bits in each byte after it. */
  lemma EncodedShort(r: int)
    requires 0 <= r < 0x800
    ensures r < 0x80 ==> EncodeRune(r) == [r]
    ensures r >= 0x80 ==>
              var e := EncodeRune(r);
              |e| == 2 && 0xC0 <= e[0] < 0xE0 && Continues(e[1]) && r == Above(e[0], 0xC0) * 64 + Above(e[1], 0x80)
  {
  }

  lemma EncodedThree(r: int)
    requires 0x800 <= r < 0x10000 && Scalar(r)
    ensures var e := EncodeRune(r);
            && |e| == 3 && 0xE0 <= e[0] < 0xF0 && Continues(e[1]) && Continues(e[2])
            && r == (Above(e[0], 0xE0) * 64 + Above(e[1], 0x80)) * 64 + Above(e[2], 0x80)
  {
    Nested(r);
  }

  lemma EncodedFour(r: int)
    requires 0x10000 <= r <= 0x10FFFF
    ensures var e := EncodeRune(r);
            && |e| == 4 && 0xF0 <= e[0] < 0xF8 && Continues(e[1]) && Continues(e[2]) && Continues(e[3])
            && r == ((Above(e[0], 0xF0) * 64 + Above(e[1], 0x80)) * 64 + Above(e[2], 0x80)) * 64 + Above(e[3], 0x80)
  {
    Nested(r);
  }

  /** A byte that belongs to no well-formed sequence becomes the replacement character. */
  lemma MalformedIsReplaced(s: Bytes)
    requires s != [] && Width(s) == 0
    ensures Runes(s) == [0xFFFD] + Runes(s[1..]) && Sanitized(s) == [0xEF, 0xBF, 0xBD] + Sanitized(s[1..])
  {
    SanitizedStep(s);
  }

  /** Base-64 digits, the arithmetic behind the continuation bytes. */
  lemma Digits(high: int, low: int)
    requires 0 <= low < 0x40
    ensures (high * 0x40 + low) / 0x40 == high && (high * 0x40 + low) % 0x40 == low
  {
  }

  lemma Nested(r: int)
    ensures r / 0x1000 == r / 0x40 / 0x40 && r / 0x40000 == r / 0x1000 / 0x40
  {
  }

  lemma EncodeTwo(s: Bytes)
    requires Width(s) == 2
    ensures EncodeRune(FirstRune(s)) == s[..2] && Scalar(FirstRune(s))
  {
  }

  lemma EncodeThree(s: Bytes)
    requires Width(s) == 3
    ensures EncodeRune(FirstRune(s)) == s[..3] && Scalar(FirstRune(s))
  {
    var lead: int, mid: int := s[0] - 0xE0, s[1] - 0x80;
    var r: int, high: int := FirstRune(s), lead * 0x40 + mid;
    assert r == high * 0x40 + (s[2] - 0x80);
    assert 0x800 <= r < 0x10000 && Scalar(r);
    Digits(high, s[2] - 0x80);
    Digits(lead, mid);
    Nested(r);
    assert EncodeRune(r) == [0xE0 + r / 0x1000, 0x80 + r / 0x40 % 0x40, 0x80 + r % 0x40];
  }

  lemma EncodeFour(s: Bytes)
    requires Width(s) == 4
    ensures EncodeRune(FirstRune(s)) == s[..4] && Scalar(FirstRune(s))
  {
    var lead: int, mid: int := s[0] - 0xF0, s[1] - 0x80;
    var top: int := lead * 0x40 + mid;
    var r: int, high: int := FirstRune(s), top * 0x40 + (s[2] - 0x80);
    assert r == high * 0x40 + (s[3] - 0x80);
    assert 0x10000 <= r <= 0x10FFFF;
    Digits(high, s[3] - 0x80);
    Digits(top, s[2] - 0x80);
    Digits(lead, mid);
    Nested(r);
    assert EncodeRune(r) == [0xF0 + r / 0x40000, 0x80 + r / 0x1000 % 0x40, 0x80 + r / 0x40 % 0x40, 0x80 + r % 0x40];
  }

  lemma EncodeFirstRune(s: Bytes)
    requires s != []
    ensures Scalar(FirstRune(s))
    ensures Width(s) > 0 ==> EncodeRune(FirstRune(s)) == s[..Width(s)]
    ensures Width(s) == 0 ==> |EncodeRune(FirstRune(s))| == 3
  {
    match Width(s) {
      case 2 => EncodeTwo(s);
      case 3 => EncodeThree(s);
      case 4 => EncodeFour(s);
      case _ =>
    }
  }

  lemma WidthOfTwo(r: int, rest: Bytes)
    requires 0x80 <= r < 0x800
    ensures Width(EncodeRune(r) + rest) == 2 && FirstRune(EncodeRune(r) + rest) == r
  {
  }

  lemma WidthOfThree(r: int, rest: Bytes)
    requires Scalar(r) && 0x800 <= r < 0x10000
    ensures Width(EncodeRune(r) + rest) == 3 && FirstRune(EncodeRune(r) + rest) == r
  {
    var s := EncodeRune(r) + rest;
    Nested(r);
    assert s[0] == 0xE0 + r / 0x1000 && s[1] == 0x80 + r / 0x40 % 0x40 && s[2] == 0x80 + r % 0x40;
  }

  lemma WidthOfFour(r: int, rest: Bytes)
    requires 0x10000 <= r <= 0x10FFFF
    ensures Width(EncodeRune(r) + rest) == 4 && FirstRune(EncodeRune(r) + rest) == r
  {
    var s := EncodeRune(r) + rest;
    Nested(r);
    assert s[0] == 0xF0 + r / 0x40000 && s[1] == 0x80 + r / 0x1000 % 0x40;
    assert s[2] == 0x80 + r / 0x40 % 0x40 && s[3] == 0x80 + r % 0x40;
  }

  lemma WidthOfEncoded(r: int, rest: Bytes)
    requires Scalar(r)
    ensures Width(EncodeRune(r) + rest) == |EncodeRune(r)|
    ensures FirstRune(EncodeRune(r) + rest) == r
  {
    if 0x80 <= r < 0x800 {
      WidthOfTwo(r, rest);
    } else if 0x800 <= r < 0x10000 {
      WidthOfThree(r, rest);
    } else if 0x10000 <= r {
      WidthOfFour(r, rest);
    }
  }

  lemma {:induction false} RunesOfEncoded(rs: seq<int>)
    requires forall i :: 0 <= i < |rs| ==> Scalar(rs[i])
    ensures Runes(Encode(rs)) == rs && ValidUtf8(Encode(rs))
  {
    if rs != [] {
      var head, rest := EncodeRune(rs[0]), Encode(rs[1..]);
      WidthOfEncoded(rs[0], rest);
      RunesOfEncoded(rs[1..]);
      assert (head + rest)[|head|..] == rest;
    }
  }

  lemma {:induction false} RunesAreScalar(s: Bytes)
    ensures forall i :: 0 <= i < |Runes(s)| ==> Scalar(Runes(s)[i])
  {
    if s != [] {
      EncodeFirstRune(s);
      RunesAreScalar(s[Consumed(s)..]);
    }
  }

  lemma EncodeCons(r: int, rs: seq<int>)
    ensures Encode([r] + rs) == EncodeRune(r) + Encode(rs)
  {
  }

  lemma SanitizedStep(s: Bytes)
    requires s != []
    ensures Sanitized(s) == EncodeRune(FirstRune(s)) + Sanitized(s[Consumed(s)..])
  {
  }

  lemma ValidStep(s: Bytes)
    requires Width(s) > 0
    ensures Sanitized(s) == s[..Width(s)] + Sanitized(s[Width(s)..])
  {
    EncodeFirstRune(s);
    SanitizedStep(s);
  }

  lemma Rejoin(s: Bytes, w: nat, t: Bytes, u: Bytes)
    requires w <= |s| && t == s[..w] + u && u == s[w..]
    ensures t == s
  {
  }

  lemma {:induction false} ValidIsUnchanged(s: Bytes)
    requires ValidUtf8(s)
    ensures Sanitized(s) == s
  {
    if s != [] {
      var w := Width(s);
      ValidStep(s);
      ValidIsUnchanged(s[w..]);
      Rejoin(s, w, Sanitized(s), Sanitized(s[w..]));
    }
  }

  lemma {:induction false} InvalidGrows(s: Bytes)
    ensures |Sanitized(s)| >= |s|
    ensures !ValidUtf8(s) ==> |Sanitized(s)| > |s|
  {
    if s != [] {
      var rest := s[Consumed(s)..];
      EncodeFirstRune(s);
      SanitizedStep(s);
      InvalidGrows(rest);
      assert |Sanitized(s)| == |EncodeRune(FirstRune(s))| + |Sanitized(rest)|;
    }
  }

  /** A trip through runes never shortens a string; it returns the same string exactly when
      the string is valid UTF-8. */
  lemma SanitizedExactly(s: Bytes)
    ensures |Sanitized(s)| >= |s|
    ensures Sanitized(s) == s <==> ValidUtf8(s)
  {
    InvalidGrows(s);
    if ValidUtf8(s) {
      ValidIsUnchanged(s);
    }
  }

  /** Validity has the expected meaning: the string encodes some sequence of scalar values. */
  lemma ValidExactlyWhenEncoded(s: Bytes)
    ensures ValidUtf8(s) <==>
              exists rs: seq<int> :: (forall i :: 0 <= i < |rs| ==> Scalar(rs[i])) && Encode(rs) == s
  {
    if ValidUtf8(s) {
      RunesAreScalar(s);
      SanitizedExactly(s);
      assert Encode(Runes(s)) == s;
    }
    forall rs: seq<int> | (forall i :: 0 <= i < |rs| ==> Scalar(rs[i])) && Encode(rs) == s
      ensures ValidUtf8(s)
    {
      RunesOfEncoded(rs);
    }
  }

  // ---------------------------------------------------------------- the separator

  /** The separator byte is never part of a longer sequence, valid or not. */
  lemma StepBeforeSeparator(a: Bytes, b: Bytes)
    requires a != []
    ensures Consumed(a + [SEPARATOR] + b) == Consumed(a)
    ensures FirstRune(a + [SEPARATOR] + b) == FirstRune(a)
  {
  }

  lemma {:induction false} RunesSplit(a: Bytes, b: Bytes)
    ensures Runes(a + [SEPARATOR] + b) == Runes(a) + [SEPARATOR as int] + Runes(b)
  {
    var s := a + [SEPARATOR] + b;
    if a == [] {
      assert s[1..] == b;
    } else {
      StepBeforeSeparator(a, b);
      var w := Consumed(a);
      assert s[w..] == a[w..] + [SEPARATOR] + b;
      RunesSplit(a[w..], b);
      assert Runes(s) == [FirstRune(a)] + Runes(s[w..]);
    }
  }

  lemma {:induction false} RunesFreeOfSeparator(s: Bytes)
    requires SEPARATOR !in s
    ensures forall i :: 0 <= i < |Runes(s)| ==> Runes(s)[i] != SEPARATOR as int
  {
    if s != [] {
      assert s[0] in s;
      RunesFreeOfSeparator(s[Consumed(s)..]);
    }
  }

  lemma {:induction false} EncodeFreeOfSeparator(rs: seq<int>)
    requires forall i :: 0 <= i < |rs| ==> rs[i] != SEPARATOR as int
    ensures SEPARATOR !in Encode(rs)
  {
    if rs != [] {
      EncodeFreeOfSeparator(rs[1..]);
      assert SEPARATOR !in EncodeRune(rs[0]);
    }
  }

  lemma {:induction false} EncodeConcat(a: seq<int>, b: seq<int>)
    ensures Encode(a + b) == Encode(a) + Encode(b)
  {
    if a == [] {
      assert a + b == b;
    } else {
      assert (a + b)[1..] == a[1..] + b;
      EncodeConcat(a[1..], b);
    }
  }

  // ---------------------------------------------------------------- messages

  function Serialize(m: Message): Bytes {
    m.kind + [SEPARATOR] + m.body
  }

  function FirstSeparator(s: Bytes): (i: nat)
    requires SEPARATOR in s
    ensures i < |s| && s[i] == SEPARATOR && SEPARATOR !in s[..i]
  {
    if s[0] == SEPARATOR then 0
    else
      assert s == [s[0]] + s[1..];
      var i := FirstSeparator(s[1..]);
      assert s[..i + 1] == [s[0]] + s[1..][..i];
      i + 1
  }

  /** The split at the first separator byte, each half as a trip through runes leaves it.
      A string without a separator is all body, and is not converted at all. */
  function Parsed(s: Bytes): Message {
    if SEPARATOR in s
    then var i := FirstSeparator(s); Message(Sanitized(s[..i]), Sanitized(s[i + 1..]))
    else Message([], s)
  }

  /** The type, a vertical bar, the body. */
  lemma WireFormat(m: Message)
    ensures |Serialize(m)| == |m.kind| + 1 + |m.body|
    ensures Serialize(m)[..|m.kind|] == m.kind && Serialize(m)[|m.kind|] == '|' as int
    ensures Serialize(m)[|m.kind| + 1..] == m.body
  {
  }

  lemma FirstSeparatorIs(s: Bytes, i: nat)
    requires i < |s| && s[i] == SEPARATOR && SEPARATOR !in s[..i]
    ensures FirstSeparator(s) == i
  {
  }

  lemma RunesAroundSeparator(s: Bytes)
    requires SEPARATOR in s
    ensures var k := FirstSeparator(s);
            && Runes(s) == Runes(s[..k]) + [SEPARATOR as int] + Runes(s[k + 1..])
            && forall j :: 0 <= j < |Runes(s[..k])| ==> Runes(s[..k])[j] != SEPARATOR as int
  {
    var k := FirstSeparator(s);
    assert s == s[..k] + [SEPARATOR] + s[k + 1..];
    RunesSplit(s[..k], s[k + 1..]);
    RunesFreeOfSeparator(s[..k]);
  }

  /** The scan over runes computes the byte-level split. */
  method Deserialize(s: Bytes) returns (m: Message)
    ensures m == Parsed(s)
  {
    var parts := Runes(s);
    ghost var at := |parts|;
    if SEPARATOR in s {
      RunesAroundSeparator(s);
      at := |Runes(s[..FirstSeparator(s)])|;
      assert parts[at] == SEPARATOR as int;
    } else {
      RunesFreeOfSeparator(s);
    }
    for i := 0 to |parts|
      invariant i <= at
    {
      if parts[i] == SEPARATOR as int {
        assert SEPARATOR in s && i == at;
        ghost var k := FirstSeparator(s);
        assert parts[..i] == Runes(s[..k]) && parts[i + 1..] == Runes(s[k + 1..]);
        return Message(Encode(parts[..i]), Encode(parts[i + 1..]));
      }
    }
    return Message([], s);
  }

  /** A string is split at its first vertical bar; without one it is all body. */
  lemma ParsedMeans(s: Bytes, i: nat)
    ensures (forall j :: 0 <= j < |s| ==> s[j] != '|' as int) ==> Parsed(s) == Message([], s)
    ensures i < |s| && s[i] == '|' as int && (forall j :: 0 <= j < i ==> s[j] != '|' as int) ==>
              Parsed(s) == Message(Encode(Runes(s[..i])), Encode(Runes(s[i + 1..])))
  {
    if i < |s| && s[i] == '|' as int && forall j :: 0 <= j < i ==> s[j] != '|' as int {
      FirstSeparatorIs(s, i);
    }
  }

  lemma ParsedSerialized(m: Message)
    requires SEPARATOR !in m.kind
    ensures Parsed(Serialize(m)) == Message(Sanitized(m.kind), Sanitized(m.body))
  {
    var s, i := Serialize(m), |m.kind|;
    assert s[i] == SEPARATOR && s[..i] == m.kind && s[i + 1..] == m.body;
    FirstSeparatorIs(s, i);
  }

  lemma ParsedKindFreeOfSeparator(s: Bytes)
    ensures SEPARATOR !in Parsed(s).kind
  {
    if SEPARATOR in s {
      var a := s[..FirstSeparator(s)];
      RunesFreeOfSeparator(a);
      EncodeFreeOfSeparator(Runes(a));
    }
  }

  /** A message survives the queue exactly when its type has no separator and both halves
      are valid UTF-8. */
  lemma RoundTripExactly(m: Message)
    ensures Parsed(Serialize(m)) == m
       <==> SEPARATOR !in m.kind && ValidUtf8(m.kind) && ValidUtf8(m.body)
  {
    ParsedKindFreeOfSeparator(Serialize(m));
    if SEPARATOR !in m.kind {
      ParsedSerialized(m);
      SanitizedExactly(m.kind);
      SanitizedExactly(m.body);
    }
  }

  lemma {:induction false} AsciiIsValid(s: Bytes)
    requires forall i :: 0 <= i < |s| ==> s[i] < 0x80
    ensures ValidUtf8(s)
  {
    if s != [] {
      AsciiIsValid(s[1..]);
    }
  }

  lemma AsciiRoundTrip(m: Message)
    requires SEPARATOR !in m.kind
    requires forall i :: 0 <= i < |m.kind| ==> m.kind[i] < 0x80
    requires forall i :: 0 <= i < |m.body| ==> m.body[i] < 0x80
    ensures Parsed(Serialize(m)) == m
  {
    AsciiIsValid(m.kind);
    AsciiIsValid(m.body);
    RoundTripExactly(m);
  }

  lemma ValidConcat(a: Bytes, b: Bytes)
    ensures Sanitized(a + [SEPARATOR] + b) == Sanitized(a) + [SEPARATOR] + Sanitized(b)
  {
    RunesSplit(a, b);
    EncodeConcat(Runes(a) + [SEPARATOR as int], Runes(b));
    EncodeConcat(Runes(a), [SEPARATOR as int]);
    EncodeCons(SEPARATOR, []);
    assert [SEPARATOR as int] + [] == [SEPARATOR as int];
  }

  /** Writing a parsed string back gives the sanitized string, or puts a separator in front
      of a string that had none.  It is the same string exactly when that string has a
      separator and is valid UTF-8. */
  lemma ReserializedExactly(s: Bytes)
    ensures Serialize(Parsed(s)) == if SEPARATOR in s then Sanitized(s) else [SEPARATOR] + s
    ensures Serialize(Parsed(s)) == s <==> SEPARATOR in s && ValidUtf8(s)
  {
    if SEPARATOR in s {
      var i := FirstSeparator(s);
      assert s == s[..i] + [SEPARATOR] + s[i + 1..];
      ValidConcat(s[..i], s[i + 1..]);
      SanitizedExactly(s);
    } else {
      assert |Serialize(Parsed(s))| == |s| + 1;
    }
  }
}
