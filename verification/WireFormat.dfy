/** The frames byte by byte, as the "Base Protocol" header part of LSP 3.17 writes them. */
module WireFormat {
  import opened Wrappers
  import opened Machine
  import opened Bytes
  import opened Framing

  /** The letters of the standard header name, as it is written and in the other casing. */
  const STANDARD: seq<byte> := [67, 111, 110, 116, 101, 110, 116, 45, 76, 101, 110, 103, 116, 104]
  const LOWER: seq<byte> := [99, 111, 110, 116, 101, 110, 116, 45, 108, 101, 110, 103, 116, 104]
  const UPPER: seq<byte> := [67, 79, 78, 84, 69, 78, 84, 45, 76, 69, 78, 71, 84, 72]

  function DigitsValue(ds: seq<byte>): nat {
    if ds == [] then 0
    else 10 * DigitsValue(ds[..|ds| - 1]) + (if ds[|ds| - 1] >= 48 then ds[|ds| - 1] as nat - 48 else 0)
  }

  predicate AllDigits(ds: seq<byte>) {
    ds != [] && forall i :: 0 <= i < |ds| ==> 48 <= ds[i] <= 57
  }

  /** The decimal digits of `n`, without leading zeros. */
  predicate Prints(ds: seq<byte>, n: nat) {
    AllDigits(ds) && DigitsValue(ds) == n && (|ds| > 1 ==> ds[0] != 48)
  }

  lemma {:induction false} DecimalPrints(n: nat)
    ensures Prints(Decimal(n), n)
    ensures n > 0 ==> Decimal(n)[0] != 48
    decreases n
  {
    if n >= 10 {
      DecimalPrints(n / 10);
      var ds := Decimal(n);
      assert ds[..|ds| - 1] == Decimal(n / 10);
    } else {
      assert Decimal(n)[..0] == [];
    }
  }

  lemma NameBytes()
    ensures ContentLengthName() == STANDARD
  {
    assert ContentLengthName()[0] == 67 && ContentLengthName()[1] == 111 && ContentLengthName()[2] == 110;
    assert ContentLengthName()[3] == 116 && ContentLengthName()[4] == 101 && ContentLengthName()[5] == 110;
    assert ContentLengthName()[6] == 116 && ContentLengthName()[7] == 45 && ContentLengthName()[8] == 76;
    assert ContentLengthName()[9] == 101 && ContentLengthName()[10] == 110 && ContentLengthName()[11] == 103;
    assert ContentLengthName()[12] == 116 && ContentLengthName()[13] == 104;
  }

  /** A written frame is the standard name, a colon, a space, the digits of the body's length,
      two line ends and the body. */
  lemma FrameBytes(body: seq<byte>)
    ensures exists ds :: Prints(ds, |body|) && Frame(body) == STANDARD + [58, 32] + ds + [13, 10, 13, 10] + body
  {
    NameBytes();
    DecimalPrints(|body|);
    var ds := Decimal(|body|);
    assert CRLF + CRLF == [13, 10, 13, 10];
    assert Frame(body) == STANDARD + [58, 32] + ds + (CRLF + CRLF) + body;
  }

  // ----- which header line gives the length

  /** The standard name in any casing of its letters, and a colon. */
  predicate Names(line: seq<byte>) {
    && |line| > 14 && line[14] == 58
    && forall i :: 0 <= i < 14 ==> line[i] == LOWER[i] || line[i] == UPPER[i]
  }

  lemma LettersOf(i: nat, b: byte)
    requires i < 14
    ensures LowerAscii(b) == LowerAscii(STANDARD[i]) <==> b == LOWER[i] || b == UPPER[i]
  {
  }

  lemma NameEndsAtColon(line: seq<byte>)
    requires Names(line)
    ensures ColonAt(line) == 14
  {
    forall i | 0 <= i < 14
      ensures line[..14][i] != COLON
    {
      assert line[i] == LOWER[i] || line[i] == UPPER[i];
    }
    ColonAtOf(line[..14], line[15..]);
    assert line == line[..14] + [COLON] + line[15..];
  }

  lemma NamesExactly(line: seq<byte>)
    ensures IsContentLength(line) <==> Names(line)
    ensures Names(line) ==> ColonAt(line) == 14
  {
    NameBytes();
    if Names(line) {
      NameEndsAtColon(line);
    }
    forall i | 0 <= i < 14 && i < |line|
      ensures LowerAscii(line[i]) == LowerAscii(STANDARD[i]) <==> line[i] == LOWER[i] || line[i] == UPPER[i]
    {
      LettersOf(i, line[i]);
    }
  }

  // ----- white space around the digits

  /** The encoding of one character of the Unicode White_Space property. */
  predicate IsWhite(bs: seq<byte>) {
    || (|bs| == 1 && (bs[0] == 9 || bs[0] == 10 || bs[0] == 11 || bs[0] == 12 || bs[0] == 13 || bs[0] == 32))
    || bs == [0xC2, 0x85] || bs == [0xC2, 0xA0] || bs == [0xE1, 0x9A, 0x80]
    || (|bs| == 3 && bs[0] == 0xE2 && bs[1] == 0x80
        && (0x80 <= bs[2] <= 0x8A || bs[2] == 0xA8 || bs[2] == 0xA9 || bs[2] == 0xAF))
    || bs == [0xE2, 0x81, 0x9F] || bs == [0xE3, 0x80, 0x80]
  }

  predicate AllWhite(pieces: seq<seq<byte>>) {
    forall i :: 0 <= i < |pieces| ==> IsWhite(pieces[i])
  }

  predicate StartsWhite(bs: seq<byte>) {
    exists w :: 1 <= w <= 3 && w <= |bs| && IsWhite(bs[..w])
  }

  function LastBytes(bs: seq<byte>, w: nat): seq<byte>
    requires w <= |bs|
  {
    bs[|bs| - w..]
  }

  predicate EndsWhite(bs: seq<byte>) {
    exists w :: 1 <= w <= 3 && w <= |bs| && IsWhite(LastBytes(bs, w))
  }

  lemma WidthIsWhite(bs: seq<byte>, w: nat)
    requires 1 <= w <= 3 && w <= |bs|
    ensures SpaceWidth(bs) == w <==> IsWhite(bs[..w])
  {
    assert bs[..w][0] == bs[0];
    if w >= 2 {
      assert bs[..w][1] == bs[1];
    }
    if w >= 3 {
      assert bs[..w][2] == bs[2];
    }
  }

  lemma WidthBounded(bs: seq<byte>)
    ensures SpaceWidth(bs) <= 3
  {
  }

  lemma NotStartingWhite(bs: seq<byte>)
    requires SpaceWidth(bs) == 0
    ensures !StartsWhite(bs)
  {
    forall v | 1 <= v <= 3 && v <= |bs|
      ensures !IsWhite(bs[..v])
    {
      WidthIsWhite(bs, v);
    }
  }

  lemma {:induction false} FrontIsTrimmed(bs: seq<byte>) returns (front: seq<seq<byte>>)
    ensures AllWhite(front) && bs == Joined(front) + TrimFront(bs)
    ensures !StartsWhite(TrimFront(bs))
    decreases |bs|
  {
    var w := SpaceWidth(bs);
    WidthBounded(bs);
    if w == 0 {
      NotStartingWhite(bs);
      front := [];
    } else {
      var rest := FrontIsTrimmed(bs[w..]);
      WidthIsWhite(bs, w);
      front := [bs[..w]] + rest;
      JoinedFirst(bs[..w], rest);
      Together(bs, w, Joined(rest), TrimFront(bs[w..]));
    }
  }

  lemma JoinedFirst(first: seq<byte>, rest: seq<seq<byte>>)
    ensures Joined([first] + rest) == first + Joined(rest)
  {
    assert ([first] + rest)[1..] == rest;
  }

  lemma Together(bs: seq<byte>, w: nat, white: seq<byte>, rest: seq<byte>)
    requires w <= |bs| && bs[w..] == white + rest
    ensures bs == (bs[..w] + white) + rest
  {
    assert bs == bs[..w] + bs[w..];
  }

  lemma {:induction false} JoinedLast(pieces: seq<seq<byte>>, last: seq<byte>)
    ensures Joined(pieces + [last]) == Joined(pieces) + last
  {
    if pieces == [] {
      assert [last][1..] == [];
    } else {
      JoinedLast(pieces[1..], last);
      assert (pieces + [last])[1..] == pieces[1..] + [last];
    }
  }

  lemma EndWidth(bs: seq<byte>, w: nat)
    requires 1 <= w <= 3
    ensures EndsWithSpace(bs, w) <==> w <= |bs| && IsWhite(LastBytes(bs, w))
  {
    if w <= |bs| {
      var tail := LastBytes(bs, w);
      WidthIsWhite(tail, w);
      assert tail[..w] == tail;
    }
  }

  lemma NotEndingWhite(bs: seq<byte>)
    requires !EndsWithSpace(bs, 1) && !EndsWithSpace(bs, 2) && !EndsWithSpace(bs, 3)
    ensures !EndsWhite(bs)
  {
    forall w | 1 <= w <= 3 && w <= |bs|
      ensures !IsWhite(LastBytes(bs, w))
    {
      assert w == 1 || w == 2 || w == 3;
      EndWidth(bs, w);
    }
  }

  /** The width of the white space at the end, nothing when there is none. */
  lemma WhiteAtEnd(bs: seq<byte>) returns (w: nat)
    ensures w <= 3 && w <= |bs|
    ensures w == 0 ==> !EndsWhite(bs) && TrimBack(bs) == bs
    ensures w > 0 ==> IsWhite(LastBytes(bs, w)) && TrimBack(bs) == TrimBack(bs[..|bs| - w])
  {
    if EndsWithSpace(bs, 1) {
      w := 1;
    } else if EndsWithSpace(bs, 2) {
      w := 2;
    } else if EndsWithSpace(bs, 3) {
      w := 3;
    } else {
      w := 0;
      NotEndingWhite(bs);
    }
    if w > 0 {
      EndWidth(bs, w);
    }
  }

  lemma {:induction false} BackIsTrimmed(bs: seq<byte>) returns (back: seq<seq<byte>>)
    ensures AllWhite(back) && bs == TrimBack(bs) + Joined(back)
    ensures !EndsWhite(TrimBack(bs))
    decreases |bs|
  {
    var w := WhiteAtEnd(bs);
    back := [];
    if w > 0 {
      var front, last := bs[..|bs| - w], LastBytes(bs, w);
      var rest := BackIsTrimmed(front);
      JoinedLast(rest, last);
      back := rest + [last];
      assert bs == front + last;
    }
  }

  // ----- the number

  lemma {:induction false} DigitsParse(ds: seq<byte>, acc: usize)
    requires forall i :: 0 <= i < |ds| ==> 48 <= ds[i] <= 57
    ensures acc * Power(|ds|) + DigitsValue(ds) <= USIZE_MAX ==>
      ParseDigits(ds, acc) == Some(acc * Power(|ds|) + DigitsValue(ds))
    ensures acc * Power(|ds|) + DigitsValue(ds) > USIZE_MAX ==> ParseDigits(ds, acc) == None
    decreases |ds|
  {
    if ds != [] {
      var next := acc * 10 + (ds[0] as int - 48);
      FirstDigit(ds);
      NextPower(acc, ds[0] as int - 48, |ds|);
      if next <= USIZE_MAX {
        DigitsParse(ds[1..], next);
      } else {
        PowerPositive(|ds| - 1);
        MoreThan(next, Power(|ds| - 1));
      }
    }
  }

  function Power(n: nat): nat {
    if n == 0 then 1 else 10 * Power(n - 1)
  }

  lemma {:induction false} PowerPositive(n: nat)
    ensures Power(n) >= 1
  {
    if n > 0 {
      PowerPositive(n - 1);
    }
  }

  lemma MoreThan(a: nat, p: nat)
    requires p >= 1
    ensures a * p >= a
  {
  }

  lemma NextPower(acc: nat, digit: nat, n: nat)
    requires n > 0
    ensures (acc * 10 + digit) * Power(n - 1) == acc * Power(n) + digit * Power(n - 1)
  {
  }

  lemma TenTimes(d: nat, p: nat)
    ensures 10 * (d * p) == d * (10 * p)
  {
  }

  lemma {:induction false} FirstDigit(ds: seq<byte>)
    requires ds != [] && forall i :: 0 <= i < |ds| ==> 48 <= ds[i] <= 57
    ensures DigitsValue(ds) == (ds[0] as int - 48) * Power(|ds| - 1) + DigitsValue(ds[1..])
  {
    var init, last, first := ds[..|ds| - 1], ds[|ds| - 1] as int - 48, ds[0] as int - 48;
    assert DigitsValue(ds) == 10 * DigitsValue(init) + last;
    if |ds| > 1 {
      FirstDigit(init);
      TenTimes(first, Power(|ds| - 2));
      var tail := ds[1..];
      assert tail[..|tail| - 1] == init[1..] && tail[|tail| - 1] == ds[|ds| - 1];
      assert DigitsValue(tail) == 10 * DigitsValue(init[1..]) + last;
    } else {
      assert init == [] && Power(0) == 1;
    }
  }

  lemma {:induction false} OtherFails(ds: seq<byte>, acc: usize)
    requires exists i :: 0 <= i < |ds| && !(48 <= ds[i] <= 57)
    ensures ParseDigits(ds, acc) == None
    decreases |ds|
  {
    var i :| 0 <= i < |ds| && !(48 <= ds[i] <= 57);
    if IsDigit(ds[0]) {
      var next := acc * 10 + (ds[0] as int - 48);
      assert ds[1..][i - 1] == ds[i];
      if next <= USIZE_MAX {
        OtherFails(ds[1..], next);
      }
    }
  }

  /** The number is an optional plus sign and digits, and fits a `usize`. */
  predicate Denotes(s: seq<byte>, n: nat) {
    n <= USIZE_MAX
    && ((AllDigits(s) && DigitsValue(s) == n)
        || (|s| > 1 && s[0] == 43 && AllDigits(s[1..]) && DigitsValue(s[1..]) == n))
  }

  lemma DigitsExactly(ds: seq<byte>, n: usize)
    requires ds != []
    ensures ParseDigits(ds, 0) == Some(n) <==> AllDigits(ds) && DigitsValue(ds) == n
  {
    if AllDigits(ds) {
      DigitsParse(ds, 0);
    } else {
      OtherFails(ds, 0);
    }
  }

  lemma ParseExactly(s: seq<byte>, n: usize)
    ensures ParseUsize(s) == Some(n) <==> Denotes(s, n)
  {
    var digits := if |s| > 1 && s[0] == 43 then s[1..] else s;
    if digits != [] {
      DigitsExactly(digits, n);
    }
    if |s| > 1 && s[0] == 43 {
      assert !AllDigits(s);
    }
  }

  /** The value is the number with white space around it. */
  ghost predicate Carries(value: seq<byte>, number: seq<byte>) {
    && !StartsWhite(number) && !EndsWhite(number)
    && exists front, back :: AllWhite(front) && AllWhite(back) && value == Joined(front) + number + Joined(back)
  }

  /** A header line changes the known length exactly when it bears the standard name, in any
      casing; then the length is the number its value carries between white space, and
      unknown when the value carries none. */
  lemma LengthComesFrom(line: seq<byte>, known: Option<usize>)
    ensures !Names(line) ==> AfterLine(line, known) == known
    ensures Names(line) ==> exists number :: Carries(line[15..], number) && Gives(AfterLine(line, known), number)
  {
    NamesExactly(line);
    if Names(line) {
      var number := TrimBack(TrimFront(line[15..]));
      TrimmedCarries(line[15..]);
      assert AfterLine(line, known) == ParseUsize(number);
      forall n: usize
        ensures ParseUsize(number) == Some(n) <==> Denotes(number, n)
      {
        ParseExactly(number, n);
      }
    }
  }

  /** The length is what the number denotes, if anything. */
  ghost predicate Gives(length: Option<usize>, number: seq<byte>) {
    forall n: usize :: length == Some(n) <==> Denotes(number, n)
  }

  lemma TrimmedCarries(value: seq<byte>)
    ensures Carries(value, TrimBack(TrimFront(value)))
  {
    var trimmed := TrimFront(value);
    var front := FrontIsTrimmed(value);
    var back := BackIsTrimmed(trimmed);
    StillNotWhite(TrimBack(trimmed), Joined(back));
    CarriedBetween(value, front, TrimBack(trimmed), back);
  }

  lemma CarriedBetween(value: seq<byte>, front: seq<seq<byte>>, number: seq<byte>, back: seq<seq<byte>>)
    requires AllWhite(front) && AllWhite(back) && value == Joined(front) + (number + Joined(back))
    requires !StartsWhite(number) && !EndsWhite(number)
    ensures Carries(value, number)
  {
    assert value == Joined(front) + number + Joined(back);
  }

  /** What is in front of white space starts white only if it did before. */
  lemma StillNotWhite(number: seq<byte>, back: seq<byte>)
    requires !StartsWhite(number + back)
    ensures !StartsWhite(number)
  {
    forall w | 1 <= w <= 3 && w <= |number|
      ensures !IsWhite(number[..w])
    {
      assert (number + back)[..w] == number[..w];
    }
  }

  // ----- frames as other programs may write them

  predicate Ascii7(bs: seq<byte>) {
    forall i :: 0 <= i < |bs| ==> bs[i] < 0x80 && bs[i] != 10
  }

  /** A line of ASCII that bears the name, ended by a line feed, with or without a carriage
      return before it. */
  lemma NamedLineIsHeader(line: seq<byte>)
    requires Names(line) && Ascii7(line)
    ensures IsHeaderLine(line + [13, 10]) && IsHeaderLine(line + [10])
  {
    AsciiIsUtf8(line + [13, 10]);
    AsciiIsUtf8(line + [10]);
    assert (line + [13, 10])[..|line| + 1] == line + [13];
    assert (line + [10])[..|line|] == line;
    assert |line + [10]| > 2;
  }

  /** After a header line that gives the length of the body, either form of the empty line
      begins the body, and the reader takes exactly it. */
  lemma BodyFollows(line: seq<byte>, end: seq<byte>, body: seq<byte>, rest: seq<byte>)
    requires IsHeaderLine(line) && AfterLine(line, None) == Some(|body|)
    requires end == [13, 10] || end == [10]
    ensures ReadFrame(line + (end + (body + rest))) == Reading(Body(body), rest)
  {
    ReadHeaderLine(line, end + (body + rest), None);
    EmptyLineEnds(end, body, rest);
  }

  lemma EmptyLineEnds(end: seq<byte>, body: seq<byte>, rest: seq<byte>)
    requires (end == [13, 10] || end == [10]) && |body| <= USIZE_MAX
    ensures ReadFrom(end + (body + rest), Some(|body|)) == Reading(Body(body), rest)
  {
    var input := end + (body + rest);
    LineLengthOf(end, body + rest);
    AsciiIsUtf8(end);
    assert input[..|end|] == end && input[|end|..] == body + rest;
    assert (body + rest)[..|body|] == body && (body + rest)[|body|..] == rest;
  }

  // ----- how any stream is read

  /** The bytes up to and including the first line feed, or all that is left without one. */
  predicate IsFirstLine(line: seq<byte>, rest: seq<byte>) {
    && line != []
    && (forall i :: 0 <= i < |line| - 1 ==> line[i] != 10)
    && (line[|line| - 1] == 10 || rest == [])
  }

  lemma {:induction false} FirstLineLength(line: seq<byte>, rest: seq<byte>)
    requires IsFirstLine(line, rest)
    ensures LineLength(line + rest) == |line|
  {
    if line[|line| - 1] == 10 {
      assert LF !in line[..|line| - 1];
      LineLengthOf(line, rest);
    } else {
      assert line + rest == line;
      assert forall i :: 0 <= i < |line| ==> line[i] != 10;
    }
  }

  /** The first line decides: text that is not UTF-8 is an error, an empty line ends the headers
      and needs a known length and that many bytes, and any other line only sets the length.
      At the end of the stream there is nothing to read. */
  lemma FirstLineDecides(line: seq<byte>, rest: seq<byte>, known: Option<usize>)
    requires IsFirstLine(line, rest)
    ensures var reading := ReadFrom(line + rest, known);
      if !ValidUtf8(line) then reading == Reading(InvalidText, rest)
      else if line != [13, 10] && line != [10] then reading == ReadFrom(rest, AfterLine(line, known))
      else
        match known
        case None => reading == Reading(MissingLength, rest)
        case Some(n) =>
          if n <= |rest| then reading == Reading(Body(rest[..n]), rest[n..]) else reading == Reading(UnexpectedEnd, [])
    ensures ReadFrom([], known) == Reading(EndOfStream, [])
  {
    FirstLineLength(line, rest);
    var input := line + rest;
    assert input[..|line|] == line && input[|line|..] == rest;
  }
}
