/** Byte strings: ASCII literals, UTF-8 validity, hexadecimal and decimal digits. */
module Bytes {
  import opened Wrappers
  import opened Machine

  /** The bytes of an ASCII literal. */
  function Ascii(s: string): seq<byte>
    requires forall i :: 0 <= i < |s| ==> s[i] < '\U{0080}'
  {
    seq(|s|, i requires 0 <= i < |s| => s[i] as int as byte)
  }

  predicate IsContinuation(b: byte) {
    0x80 <= b <= 0xBF
  }

  /** Length of the well-formed UTF-8 sequence at the front (Unicode table 3-7), or 0. */
  function ScalarLength(bs: seq<byte>): (n: nat)
    ensures n <= |bs|
    ensures n == 0 || n == 1 || n == 2 || n == 3 || n == 4
  {
    if |bs| >= 1 && bs[0] < 0x80 then 1
    else if |bs| >= 2 && 0xC2 <= bs[0] <= 0xDF && IsContinuation(bs[1]) then 2
    else if |bs| >= 3 && 0xE0 <= bs[0] <= 0xEF && IsContinuation(bs[1]) && IsContinuation(bs[2])
      && (bs[0] == 0xE0 ==> bs[1] >= 0xA0) && (bs[0] == 0xED ==> bs[1] <= 0x9F) then 3
    else if |bs| >= 4 && 0xF0 <= bs[0] <= 0xF4 && IsContinuation(bs[1]) && IsContinuation(bs[2])
      && IsContinuation(bs[3])
      && (bs[0] == 0xF0 ==> bs[1] >= 0x90) && (bs[0] == 0xF4 ==> bs[1] <= 0x8F) then 4
    else 0
  }

  predicate ValidUtf8(bs: seq<byte>)
    decreases |bs|
  {
    bs == [] || (ScalarLength(bs) > 0 && ValidUtf8(bs[ScalarLength(bs)..]))
  }

  lemma {:induction false} AsciiIsUtf8(bs: seq<byte>)
    requires forall i :: 0 <= i < |bs| ==> bs[i] < 0x80
    ensures ValidUtf8(bs)
    decreases |bs|
  {
    if bs != [] {
      AsciiIsUtf8(bs[1..]);
    }
  }

  function FromUtf8(decoded: Option<seq<byte>>): Option<seq<byte>> {
    if decoded.Some? && ValidUtf8(decoded.value) then decoded else None
  }

  function HexValue(b: byte): (v: Option<byte>)
    ensures v.Some? ==> v.value < 16
  {
    if 0x30 <= b <= 0x39 then Some(b - 0x30)
    else if 0x61 <= b <= 0x66 then Some(b - 0x61 + 10)
    else if 0x41 <= b <= 0x46 then Some(b - 0x41 + 10)
    else None
  }

  /** The digit `{:02X}` prints for a nibble. */
  function UpperHex(n: byte): (b: byte)
    requires n < 16
    ensures HexValue(b) == Some(n)
    ensures 0x30 <= b <= 0x39 || 0x41 <= b <= 0x46
  {
    if n < 10 then 0x30 + n else 0x41 + (n - 10)
  }

  predicate IsDigit(b: byte) {
    0x30 <= b <= 0x39
  }

  /** Decimal digits of a number, most significant first. */
  function Decimal(n: nat): (ds: seq<byte>)
    ensures ds != [] && forall i :: 0 <= i < |ds| ==> IsDigit(ds[i])
  {
    var digit := (n % 10) as byte + 0x30;
    if n < 10 then [digit] else Decimal(n / 10) + [digit]
  }

  /** Reads digits after `acc`; a non-digit or a value over the `usize` limit fails. */
  function ParseDigits(ds: seq<byte>, acc: usize): Option<usize>
    decreases |ds|
  {
    if ds == [] then Some(acc)
    else if !IsDigit(ds[0]) then None
    else
      var next := acc * 10 + (ds[0] as int - 0x30);
      if next > USIZE_MAX then None else ParseDigits(ds[1..], next)
  }

  /** `str::parse::<usize>`, which accepts one leading plus sign. */
  function ParseUsize(s: seq<byte>): Option<usize> {
    var digits := if |s| > 1 && s[0] == 0x2B then s[1..] else s;
    if digits == [] then None else ParseDigits(digits, 0)
  }

  lemma {:induction false} ParseDigitsConcat(a: seq<byte>, b: seq<byte>, acc: usize)
    requires ParseDigits(a, acc).Some?
    ensures ParseDigits(a + b, acc) == ParseDigits(b, ParseDigits(a, acc).value)
    decreases |a|
  {
    if a == [] {
      assert a + b == b;
    } else {
      assert (a + b)[1..] == a[1..] + b;
      ParseDigitsConcat(a[1..], b, acc * 10 + (a[0] as int - 0x30));
    }
  }

  lemma {:induction false} DecimalDigitsParse(n: usize)
    ensures ParseDigits(Decimal(n), 0) == Some(n)
    decreases n
  {
    if n >= 10 {
      DecimalDigitsParse(n / 10);
      ParseDigitsConcat(Decimal(n / 10), [(n % 10) as byte + 0x30], 0);
    }
  }

  /** Printing and parsing a `usize` are inverse. */
  lemma DecimalRoundTrip(n: usize)
    ensures ParseUsize(Decimal(n)) == Some(n)
  {
    DecimalDigitsParse(n);
  }
}
