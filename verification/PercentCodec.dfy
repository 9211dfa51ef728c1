/** The percent encoder of file URIs and its two separately written decoders. */
module PercentCodec {
  import opened Alphabet
  import opened Wrappers
  import opened Machine
  import opened Bytes

  const PERCENT: byte := 0x25
  const PLUS: byte := 0x2B
  const MINUS: byte := 0x2D

  /** Bytes the encoder copies: RFC 3986 section 2.3 unreserved, plus '/' and ':'. */
  predicate IsPlain(b: byte) {
    || 0x30 <= b <= 0x39 || 0x41 <= b <= 0x5A || 0x61 <= b <= 0x7A
    || b == 0x2F || b == 0x3A || b == 0x2D || b == 0x5F || b == 0x2E || b == 0x7E
  }

  function EncodeByte(b: byte): seq<byte> {
    if IsPlain(b) then [b] else [PERCENT, UpperHex(b / 16), UpperHex(b % 16)]
  }

  function Encode(bs: seq<byte>): seq<byte> {
    if bs == [] then [] else EncodeByte(bs[0]) + Encode(bs[1..])
  }

  lemma EncodeNext(done: seq<byte>, value: seq<byte>, i: nat)
    requires i < |value|
    ensures done + Encode(value[i..]) == (done + EncodeByte(value[i])) + Encode(value[i + 1..])
  {
    assert value[i..][0] == value[i] && value[i..][1..] == value[i + 1..];
  }

  method PercentEncodePath(value: seq<byte>) returns (encoded: seq<byte>)
    ensures encoded == Encode(value)
  {
    encoded := [];
    for i := 0 to |value|
      invariant encoded + Encode(value[i..]) == Encode(value)
    {
      EncodeNext(encoded, value, i);
      if IsPlain(value[i]) {
        encoded := encoded + [value[i]];
      } else {
        encoded := encoded + [PERCENT, UpperHex(value[i] / 16), UpperHex(value[i] % 16)];
      }
    }
  }

  // ----- decoding

  /** Replaces each escape by the byte `pair` makes of its two characters. */
  function Unescape(bs: seq<byte>, pair: (byte, byte) -> Option<byte>): Option<seq<byte>>
    decreases |bs|
  {
    if bs == [] then Some([])
    else if bs[0] == PERCENT then
      if |bs| < 3 || pair(bs[1], bs[2]).None? then None
      else Prepend(pair(bs[1], bs[2]).value, Unescape(bs[3..], pair))
    else Prepend(bs[0], Unescape(bs[1..], pair))
  }

  function Prepend(b: byte, rest: Option<seq<byte>>): Option<seq<byte>> {
    match rest
    case None => None
    case Some(bs) => Some([b] + bs)
  }

  /** The session's escape: both characters are hexadecimal digits. */
  function SessionPair(high: byte, low: byte): Option<byte> {
    if HexValue(high).Some? && HexValue(low).Some?
    then Some(HexValue(high).value * 16 + HexValue(low).value)
    else None
  }

  function ParseHexDigits(ds: seq<byte>, acc: nat): Option<byte>
    requires acc <= 0xFF
    decreases |ds|
  {
    if ds == [] then Some(acc as byte)
    else if HexValue(ds[0]).None? then None
    else
      var next := acc * 16 + HexValue(ds[0]).value as int;
      if next > 0xFF then None else ParseHexDigits(ds[1..], next)
  }

  /** `u8::from_str_radix(_, 16)`, which accepts one leading plus sign. */
  function FromStrRadix16(s: seq<byte>): Option<byte> {
    if s == [] || s == [PLUS] || s == [MINUS] then None
    else if s[0] == PLUS then ParseHexDigits(s[1..], 0)
    else ParseHexDigits(s, 0)
  }

  /** The library's escape: the two characters parsed as a base-16 integer. */
  function LibraryPair(high: byte, low: byte): Option<byte> {
    if ValidUtf8([high, low]) then FromStrRadix16([high, low]) else None
  }

  method SessionPercentDecode(value: seq<byte>) returns (r: Option<seq<byte>>)
    ensures r == FromUtf8(Unescape(value, SessionPair))
  {
    var decoded := [];
    var index := 0;
    PrefixedNothing(value, SessionPair);
    while index < |value|
      invariant 0 <= index <= |value|
      invariant Unescape(value, SessionPair) == Prefixed(decoded, Unescape(value[index..], SessionPair))
    {
      ghost var rest := value[index..];
      if value[index] == PERCENT {
        if index + 1 >= |value| || index + 2 >= |value| {
          return None;
        }
        assert rest[1] == value[index + 1] && rest[2] == value[index + 2] && rest[3..] == value[index + 3..];
        var high := HexValue(value[index + 1]);
        var low := HexValue(value[index + 2]);
        if high.None? || low.None? {
          return None;
        }
        PrefixedStep(decoded, high.value * 16 + low.value, Unescape(value[index + 3..], SessionPair));
        decoded := decoded + [high.value * 16 + low.value];
        index := index + 3;
      } else {
        assert rest[1..] == value[index + 1..];
        PrefixedStep(decoded, value[index], Unescape(value[index + 1..], SessionPair));
        decoded := decoded + [value[index]];
        index := index + 1;
      }
    }
    assert decoded + [] == decoded;
    return if ValidUtf8(decoded) then Some(decoded) else None;
  }

  method LibraryPercentDecode(value: seq<byte>) returns (r: Option<seq<byte>>)
    ensures r == FromUtf8(Unescape(value, LibraryPair))
  {
    var output := [];
    var index := 0;
    PrefixedNothing(value, LibraryPair);
    while index < |value|
      invariant 0 <= index <= |value|
      invariant Unescape(value, LibraryPair) == Prefixed(output, Unescape(value[index..], LibraryPair))
    {
      ghost var rest := value[index..];
      if value[index] == PERCENT {
        if index + 2 >= |value| {
          return None;
        }
        var pair := value[index + 1..index + 3];
        assert pair == [rest[1], rest[2]] && rest[3..] == value[index + 3..];
        if !ValidUtf8(pair) {
          return None;
        }
        var parsed := FromStrRadix16(pair);
        if parsed.None? {
          return None;
        }
        PrefixedStep(output, parsed.value, Unescape(value[index + 3..], LibraryPair));
        output := output + [parsed.value];
        index := index + 3;
      } else {
        assert rest[1..] == value[index + 1..];
        PrefixedStep(output, value[index], Unescape(value[index + 1..], LibraryPair));
        output := output + [value[index]];
        index := index + 1;
      }
    }
    assert output + [] == output;
    return if ValidUtf8(output) then Some(output) else None;
  }

  function Prefixed(prefix: seq<byte>, rest: Option<seq<byte>>): Option<seq<byte>> {
    match rest
    case None => None
    case Some(bs) => Some(prefix + bs)
  }

  lemma PrefixedNothing(value: seq<byte>, pair: (byte, byte) -> Option<byte>)
    ensures Unescape(value, pair) == Prefixed([], Unescape(value[0..], pair))
  {
    assert value[0..] == value;
    if Unescape(value, pair).Some? {
      assert [] + Unescape(value, pair).value == Unescape(value, pair).value;
    }
  }

  lemma PrefixedStep(prefix: seq<byte>, b: byte, rest: Option<seq<byte>>)
    ensures Prefixed(prefix, Prepend(b, rest)) == Prefixed(prefix + [b], rest)
  {
    if rest.Some? {
      assert prefix + ([b] + rest.value) == prefix + [b] + rest.value;
    }
  }

  // ----- properties

  /** Only plain bytes and escapes of two upper-case hexadecimal digits occur. */
  predicate WellEncoded(s: seq<byte>)
    decreases |s|
  {
    if s == [] then true
    else if s[0] == PERCENT then
      |s| >= 3 && IsUpperHex(s[1]) && IsUpperHex(s[2]) && WellEncoded(s[3..])
    else IsPlain(s[0]) && WellEncoded(s[1..])
  }

  predicate IsUpperHex(b: byte) {
    0x30 <= b <= 0x39 || 0x41 <= b <= 0x46
  }

  lemma {:induction false} EncodingAlphabet(bs: seq<byte>)
    ensures WellEncoded(Encode(bs))
  {
    if bs != [] {
      EncodingAlphabet(bs[1..]);
      assert Encode(bs)[|EncodeByte(bs[0])|..] == Encode(bs[1..]);
    }
  }

  lemma PairsReadUpperHex(b: byte)
    ensures SessionPair(UpperHex(b / 16), UpperHex(b % 16)) == Some(b)
    ensures LibraryPair(UpperHex(b / 16), UpperHex(b % 16)) == Some(b)
  {
    PairsAgree(UpperHex(b / 16), UpperHex(b % 16));
  }

  lemma ParsePair(high: byte, low: byte)
    ensures ParseHexDigits([high, low], 0) == SessionPair(high, low)
    ensures ParseHexDigits([low], 0) == HexValue(low)
  {
    assert [high, low][1..] == [low] && [low][1..] == [];
    if HexValue(high).Some? {
      var h := HexValue(high).value as int;
      assert ParseHexDigits([high, low], 0) == ParseHexDigits([low], h);
      if HexValue(low).Some? {
        var l := HexValue(low).value as int;
        assert ParseHexDigits([low], h) == ParseHexDigits([], h * 16 + l);
      }
    }
  }

  /** On one escape the decoders differ only when the first character is a plus sign. */
  lemma PairsAgree(high: byte, low: byte)
    ensures SessionPair(high, low) == if high == PLUS then None else LibraryPair(high, low)
  {
    ParsePair(high, low);
    if high < 0x80 && low < 0x80 {
      AsciiIsUtf8([high, low]);
    }
  }

  function PairOf(session: bool): (byte, byte) -> Option<byte> {
    if session then SessionPair else LibraryPair
  }

  lemma UnescapeEncodedByte(b: byte, rest: seq<byte>, session: bool)
    ensures Unescape(EncodeByte(b) + rest, PairOf(session)) == Prepend(b, Unescape(rest, PairOf(session)))
  {
    var encoded := EncodeByte(b) + rest;
    PairsReadUpperHex(b);
    assert encoded[|EncodeByte(b)|..] == rest;
  }

  lemma {:induction false} UnescapeEncoded(bs: seq<byte>, session: bool)
    ensures Unescape(Encode(bs), PairOf(session)) == Some(bs)
  {
    if bs != [] {
      UnescapeEncoded(bs[1..], session);
      UnescapeEncodedByte(bs[0], Encode(bs[1..]), session);
      assert bs == [bs[0]] + bs[1..];
    }
  }

  /** Both decoders return the bytes that were encoded, exactly when they are UTF-8. */
  lemma PercentRoundTrip(bs: seq<byte>)
    ensures FromUtf8(Unescape(Encode(bs), SessionPair)) == if ValidUtf8(bs) then Some(bs) else None
    ensures FromUtf8(Unescape(Encode(bs), LibraryPair)) == if ValidUtf8(bs) then Some(bs) else None
  {
    UnescapeEncoded(bs, true);
    UnescapeEncoded(bs, false);
  }

  predicate HasPercentPlus(s: seq<byte>) {
    exists i :: 0 <= i < |s| - 1 && s[i] == PERCENT && s[i + 1] == PLUS
  }

  lemma HasPercentPlusTail(s: seq<byte>, n: nat)
    requires n <= |s|
    requires forall i :: 0 <= i < n && i < |s| - 1 ==> !(s[i] == PERCENT && s[i + 1] == PLUS)
    ensures HasPercentPlus(s) <==> HasPercentPlus(s[n..])
  {
    if HasPercentPlus(s) {
      var i :| 0 <= i < |s| - 1 && s[i] == PERCENT && s[i + 1] == PLUS;
      assert s[n..][i - n] == PERCENT && s[n..][i - n + 1] == PLUS;
    }
    if HasPercentPlus(s[n..]) {
      var i :| 0 <= i < |s[n..]| - 1 && s[n..][i] == PERCENT && s[n..][i + 1] == PLUS;
      assert s[i + n] == PERCENT && s[i + n + 1] == PLUS;
    }
  }

  /** The session decoder is the library decoder restricted to inputs without "%+":
      they agree on those, and on the others the session decoder always fails. */
  lemma {:induction false} DecodersAgree(s: seq<byte>)
    ensures Unescape(s, SessionPair) == if HasPercentPlus(s) then None else Unescape(s, LibraryPair)
    decreases |s|
  {
    if s != [] {
      if s[0] != PERCENT {
        HasPercentPlusTail(s, 1);
        DecodersAgree(s[1..]);
      } else if |s| >= 3 {
        PairsAgree(s[1], s[2]);
        if SessionPair(s[1], s[2]).Some? {
          HasPercentPlusTail(s, 3);
          DecodersAgree(s[3..]);
        } else if s[1] == PLUS {
          assert s[0] == PERCENT && s[0 + 1] == PLUS;
        }
      }
    }
  }

  /** The decoders return different results exactly on the inputs that contain "%+" and that
      the library decoder accepts. */
  lemma DecodersDisagreeExactly(s: seq<byte>)
    ensures FromUtf8(Unescape(s, SessionPair)) != FromUtf8(Unescape(s, LibraryPair)) <==>
      HasPercentPlus(s) && FromUtf8(Unescape(s, LibraryPair)).Some?
  {
    DecodersAgree(s);
  }

  /** An accepted input the decoders disagree on: "%+5" is 5 to one and an error to the other. */
  lemma DecodersDisagreeOnPlus()
    ensures Unescape([0x25, 0x2B, 0x35], SessionPair).None?
    ensures Unescape([0x25, 0x2B, 0x35], LibraryPair) == Some([5])
  {
    var s := [PERCENT, PLUS, 0x35];
    AsciiIsUtf8([PLUS, 0x35]);
    assert [PLUS, 0x35][1..] == [0x35];
    ParsePair(PLUS, 0x35);
    assert LibraryPair(PLUS, 0x35) == HexValue(0x35) == Some(5);
    assert s[3..] == [];
    var five: byte := 5;
    assert [five] + [] == [five];
  }

  // ----- escapes in either casing

  /** Hexadecimal digits and their values, one casing after the other. */
  const LOWER_DIGITS: seq<byte> := [48, 49, 50, 51, 52, 53, 54, 55, 56, 57, 97, 98, 99, 100, 101, 102]
  const UPPER_DIGITS: seq<byte> := [48, 49, 50, 51, 52, 53, 54, 55, 56, 57, 65, 66, 67, 68, 69, 70]

  lemma DigitValues(b: byte, v: byte)
    requires v < 16
    ensures HexValue(b) == Some(v) <==> b == LOWER_DIGITS[v] || b == UPPER_DIGITS[v]
  {
  }

  /** Both decoders read two digits of either casing as the byte they stand for. */
  lemma PairsReadBothCasings(high: byte, low: byte, x: byte, y: byte)
    requires x < 16 && y < 16
    requires high == LOWER_DIGITS[x] || high == UPPER_DIGITS[x]
    requires low == LOWER_DIGITS[y] || low == UPPER_DIGITS[y]
    ensures SessionPair(high, low) == Some(16 * x + y) && LibraryPair(high, low) == Some(16 * x + y)
  {
    DigitValues(high, x);
    DigitValues(low, y);
    PairsAgree(high, low);
  }

  /** The session decoder reads nothing else: both characters are digits of one casing or the
      other. */
  lemma PairsReadOnlyDigits(high: byte, low: byte, b: byte)
    ensures SessionPair(high, low) == Some(b) <==>
      exists x, y :: 0 <= x < 16 && 0 <= y < 16 && b == 16 * x + y && IsDigitOf(high, x) && IsDigitOf(low, y)
  {
    if SessionPair(high, low) == Some(b) {
      var x, y := HexValue(high).value, HexValue(low).value;
      DigitValues(high, x);
      DigitValues(low, y);
      assert IsDigitOf(high, x) && IsDigitOf(low, y);
    }
    if x: byte, y: byte :| 0 <= x < 16 && 0 <= y < 16 && b == 16 * x + y && IsDigitOf(high, x) && IsDigitOf(low, y) {
      PairsReadBothCasings(high, low, x, y);
    }
  }

  predicate IsDigitOf(b: byte, v: byte) {
    v < 16 && (b == LOWER_DIGITS[v] || b == UPPER_DIGITS[v])
  }

  // ----- what is escaped, and how

  /** An ASCII letter or digit, or one of slash, colon, hyphen, underscore, dot and tilde. */
  predicate IsUnreserved(b: byte) {
    || (exists k :: 0 <= k < 26 && (b as int == LETTERS[k] as int || b as int == CAPITALS[k] as int))
    || (exists k :: 0 <= k < 10 && b == LOWER_DIGITS[k])
    || b == 47 || b == 58 || b == 45 || b == 95 || b == 46 || b == 126
  }

  lemma PlainExactly(b: byte)
    ensures IsPlain(b) <==> IsUnreserved(b)
  {
    LettersInOrder();
    if 97 <= b <= 122 {
      assert LETTERS[b as int - 97] as int == b as int;
    } else if 65 <= b <= 90 {
      assert CAPITALS[b as int - 65] as int == b as int;
    } else if 48 <= b <= 57 {
      assert LOWER_DIGITS[b as int - 48] == b;
    }
  }

  /** Unreserved bytes stand for themselves; every other byte becomes a percent sign and its
      two upper-case hexadecimal digits. */
  lemma EncodedByteIs(b: byte)
    ensures EncodeByte(b) ==
      if IsUnreserved(b) then [b] else [0x25, UPPER_DIGITS[b as int / 16], UPPER_DIGITS[b as int % 16]]
  {
    PlainExactly(b);
  }
}
