/** UTF-8 validity from the other side: the valid byte strings are the encodings of scalar
    values (section 3 of RFC 3629). */
module Utf8 {
  import opened Machine
  import opened Bytes

  predicate IsScalar(c: nat) {
    c < 0xD800 || 0xE000 <= c < 0x110000
  }

  /** One scalar value: its bits, six to a continuation byte. */
  function EncodeScalar(c: nat): (bs: seq<byte>)
    requires IsScalar(c)
    ensures bs != []
  {
    if c < 0x80 then [c as byte]
    else if c < 0x800 then [(0xC0 + c / 64) as byte, (0x80 + c % 64) as byte]
    else if c < 0x10000 then
      [(0xE0 + c / 4096) as byte, (0x80 + c / 64 % 64) as byte, (0x80 + c % 64) as byte]
    else
      [(0xF0 + c / 262144) as byte, (0x80 + c / 4096 % 64) as byte, (0x80 + c / 64 % 64) as byte,
       (0x80 + c % 64) as byte]
  }

  predicate AllScalars(cs: seq<nat>) {
    forall i :: 0 <= i < |cs| ==> IsScalar(cs[i])
  }

  function EncodeAll(cs: seq<nat>): seq<byte>
    requires AllScalars(cs)
  {
    if cs == [] then [] else EncodeScalar(cs[0]) + EncodeAll(cs[1..])
  }

  lemma EncodedLength(c: nat, rest: seq<byte>)
    requires IsScalar(c)
    ensures ScalarLength(EncodeScalar(c) + rest) == |EncodeScalar(c)|
  {
    var bs := EncodeScalar(c) + rest;
    if 0x800 <= c < 0x10000 {
      ThreeBytes(c);
      assert bs[0] == EncodeScalar(c)[0] && bs[1] == EncodeScalar(c)[1] && bs[2] == EncodeScalar(c)[2];
    } else if c >= 0x10000 {
      FourBytes(c);
      assert bs[0] == EncodeScalar(c)[0] && bs[1] == EncodeScalar(c)[1];
      assert bs[2] == EncodeScalar(c)[2] && bs[3] == EncodeScalar(c)[3];
    }
  }

  lemma ThreeBytes(c: nat)
    requires 0x800 <= c < 0x10000 && IsScalar(c)
    ensures var bs := EncodeScalar(c);
      && 0xE0 <= bs[0] <= 0xEF && IsContinuation(bs[1]) && IsContinuation(bs[2])
      && (bs[0] == 0xE0 ==> bs[1] >= 0xA0) && (bs[0] == 0xED ==> bs[1] <= 0x9F)
  {
    assert c / 64 == c / 4096 * 64 + c / 64 % 64;
  }

  lemma FourBytes(c: nat)
    requires 0x10000 <= c < 0x110000
    ensures var bs := EncodeScalar(c);
      && 0xF0 <= bs[0] <= 0xF4 && IsContinuation(bs[1]) && IsContinuation(bs[2]) && IsContinuation(bs[3])
      && (bs[0] == 0xF0 ==> bs[1] >= 0x90) && (bs[0] == 0xF4 ==> bs[1] <= 0x8F)
  {
    assert c / 4096 == c / 262144 * 64 + c / 4096 % 64;
  }

  /** The scalar value whose encoding is at the front. */
  function ScalarOf(bs: seq<byte>): (c: nat)
    requires ScalarLength(bs) > 0
  {
    var n := ScalarLength(bs);
    if n == 1 then bs[0] as nat
    else if n == 2 then (bs[0] as nat - 0xC0) * 64 + (bs[1] as nat - 0x80)
    else if n == 3 then
      ((bs[0] as nat - 0xE0) * 64 + (bs[1] as nat - 0x80)) * 64 + (bs[2] as nat - 0x80)
    else
      (((bs[0] as nat - 0xF0) * 64 + (bs[1] as nat - 0x80)) * 64 + (bs[2] as nat - 0x80)) * 64 + (bs[3] as nat - 0x80)
  }

  /** Taking six bits off the end. */
  lemma SixBits(a: nat, b: nat)
    requires b < 64
    ensures (a * 64 + b) / 64 == a && (a * 64 + b) % 64 == b
  {
  }

  lemma TwoEncode(x: nat, y: nat)
    requires 0xC2 <= x <= 0xDF && 0x80 <= y <= 0xBF
    ensures var c := (x - 0xC0) * 64 + (y - 0x80);
      IsScalar(c) && EncodeScalar(c) == [x as byte, y as byte]
  {
    SixBits(x - 0xC0, y - 0x80);
  }

  lemma ThreeEncode(x: nat, y: nat, z: nat)
    requires 0xE0 <= x <= 0xEF && 0x80 <= y <= 0xBF && 0x80 <= z <= 0xBF
    requires (x == 0xE0 ==> y >= 0xA0) && (x == 0xED ==> y <= 0x9F)
    ensures var c := ((x - 0xE0) * 64 + (y - 0x80)) * 64 + (z - 0x80);
      IsScalar(c) && EncodeScalar(c) == [x as byte, y as byte, z as byte]
  {
    var d := (x - 0xE0) * 64 + (y - 0x80);
    var c := d * 64 + (z - 0x80);
    SixBits(d, z - 0x80);
    SixBits(x - 0xE0, y - 0x80);
    DivTwice(c);
    assert 0x800 <= c < 0x10000;
  }

  lemma DivTwice(c: nat)
    ensures c / 64 / 64 == c / 4096
    ensures c / 4096 / 64 == c / 262144
  {
  }

  lemma FourEncode(x: nat, y: nat, z: nat, w: nat)
    requires 0xF0 <= x <= 0xF4 && 0x80 <= y <= 0xBF && 0x80 <= z <= 0xBF && 0x80 <= w <= 0xBF
    requires (x == 0xF0 ==> y >= 0x90) && (x == 0xF4 ==> y <= 0x8F)
    ensures var c := (((x - 0xF0) * 64 + (y - 0x80)) * 64 + (z - 0x80)) * 64 + (w - 0x80);
      IsScalar(c) && EncodeScalar(c) == [x as byte, y as byte, z as byte, w as byte]
  {
    var e := (x - 0xF0) * 64 + (y - 0x80);
    var d := e * 64 + (z - 0x80);
    var c := d * 64 + (w - 0x80);
    SixBits(d, w - 0x80);
    SixBits(e, z - 0x80);
    SixBits(x - 0xF0, y - 0x80);
    DivTwice(c);
    assert 0x10000 <= c < 0x110000;
  }

  lemma ScalarEncodes(bs: seq<byte>)
    requires ScalarLength(bs) > 0
    ensures IsScalar(ScalarOf(bs)) && EncodeScalar(ScalarOf(bs)) == bs[..ScalarLength(bs)]
  {
    var n := ScalarLength(bs);
    if n == 2 {
      TwoEncode(bs[0] as nat, bs[1] as nat);
    } else if n == 3 {
      ThreeEncode(bs[0] as nat, bs[1] as nat, bs[2] as nat);
    } else if n == 4 {
      FourEncode(bs[0] as nat, bs[1] as nat, bs[2] as nat, bs[3] as nat);
    }
  }

  lemma {:induction false} EncodingsAreValid(cs: seq<nat>)
    requires AllScalars(cs)
    ensures ValidUtf8(EncodeAll(cs))
  {
    if cs != [] {
      EncodingsAreValid(cs[1..]);
      EncodedLength(cs[0], EncodeAll(cs[1..]));
      var bs := EncodeAll(cs);
      assert bs[|EncodeScalar(cs[0])|..] == EncodeAll(cs[1..]);
    }
  }

  lemma {:induction false} ValidIsEncoding(bs: seq<byte>) returns (cs: seq<nat>)
    requires ValidUtf8(bs)
    ensures AllScalars(cs) && EncodeAll(cs) == bs
    decreases |bs|
  {
    cs := [];
    if bs != [] {
      var n := ScalarLength(bs);
      var rest := ValidIsEncoding(bs[n..]);
      ScalarEncodes(bs);
      cs := [ScalarOf(bs)] + rest;
      assert cs[1..] == rest && bs == bs[..n] + bs[n..];
    }
  }

  /** A byte string is valid UTF-8 exactly when it encodes some sequence of scalar values. */
  lemma ValidExactlyEncodings(bs: seq<byte>)
    ensures ValidUtf8(bs) <==> exists cs :: AllScalars(cs) && EncodeAll(cs) == bs
  {
    if ValidUtf8(bs) {
      var cs := ValidIsEncoding(bs);
    }
    if cs :| AllScalars(cs) && EncodeAll(cs) == bs {
      EncodingsAreValid(cs);
    }
  }
}
