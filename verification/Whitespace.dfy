/** White space of texts and white space of headers are the same characters. */
module Whitespace {
  import opened Machine
  import opened Text
  import opened Utf8
  import opened WireFormat

  lemma TwoByteWhite(n: nat)
    requires 0x80 <= n < 0x800
    ensures IsWhite(EncodeScalar(n)) <==> n == 0x85 || n == 0xA0
  {
  }

  lemma ThreeByteWhite(n: nat)
    requires 0x800 <= n < 0x10000 && IsScalar(n)
    ensures IsWhite(EncodeScalar(n)) <==>
      n == 0x1680 || 0x2000 <= n <= 0x200A || n == 0x2028 || n == 0x2029 || n == 0x202F || n == 0x205F || n == 0x3000
  {
    var bs := EncodeScalar(n);
    assert n == (n / 4096) * 4096 + (n / 64 % 64) * 64 + n % 64;
    assert |bs| == 3 && bs[0] as nat == 0xE0 + n / 4096 && bs[1] as nat == 0x80 + n / 64 % 64
        && bs[2] as nat == 0x80 + n % 64;
  }

  /** A character is white space to `trim` exactly when its UTF-8 encoding is white space to the
      reader of header lines. */
  lemma WhiteIsWhitespace(c: char)
    ensures IsScalar(c as nat) && (IsWhitespace(c) <==> IsWhite(EncodeScalar(c as nat)))
  {
    var n := c as nat;
    if 0x80 <= n < 0x800 {
      TwoByteWhite(n);
    } else if 0x800 <= n < 0x10000 {
      ThreeByteWhite(n);
    }
  }
}
