/** `Content-Length` framing of messages on the language server's streams. Bodies are
    opaque byte strings; parsing a body as JSON is not part of this model. */
module Framing {
  import opened Wrappers
  import opened Machine
  import opened Bytes

  const CR: byte := 0x0D
  const LF: byte := 0x0A
  const COLON: byte := 0x3A
  const CRLF: seq<byte> := [CR, LF]

  function ContentLengthName(): seq<byte> {
    Ascii("Content-Length")
  }

  function Header(n: nat): seq<byte> {
    ContentLengthName() + [COLON, 0x20] + Decimal(n) + CRLF
  }

  /** What one write puts on the stream. */
  function Frame(body: seq<byte>): seq<byte> {
    Header(|body|) + CRLF + body
  }

  function Frames(bodies: seq<seq<byte>>): seq<byte> {
    if bodies == [] then [] else Frame(bodies[0]) + Frames(bodies[1..])
  }

  // ----- reading

  /** How many bytes `read_line` takes: up to and including a line feed, or all. */
  function LineLength(input: seq<byte>): (n: nat)
    ensures n <= |input|
    ensures input != [] ==> n > 0
    ensures LF !in input[..SatSub(n, 1)]
    ensures n == 0 || input[n - 1] == LF || n == |input|
  {
    if input == [] then 0
    else if input[0] == LF then 1
    else 1 + LineLength(input[1..])
  }

  /** Width of the white-space character at the front, in its UTF-8 encoding, or 0. */
  function SpaceWidth(bs: seq<byte>): (n: nat)
    ensures n <= |bs|
  {
    if |bs| >= 1 && (0x09 <= bs[0] <= 0x0D || bs[0] == 0x20) then 1
    else if |bs| >= 2 && bs[0] == 0xC2 && (bs[1] == 0x85 || bs[1] == 0xA0) then 2
    else if |bs| >= 3 && bs[0] == 0xE1 && bs[1] == 0x9A && bs[2] == 0x80 then 3
    else if |bs| >= 3 && bs[0] == 0xE2 && bs[1] == 0x80
      && (0x80 <= bs[2] <= 0x8A || bs[2] == 0xA8 || bs[2] == 0xA9 || bs[2] == 0xAF) then 3
    else if |bs| >= 3 && bs[0] == 0xE2 && bs[1] == 0x81 && bs[2] == 0x9F then 3
    else if |bs| >= 3 && bs[0] == 0xE3 && bs[1] == 0x80 && bs[2] == 0x80 then 3
    else 0
  }

  function TrimFront(bs: seq<byte>): seq<byte>
    decreases |bs|
  {
    if SpaceWidth(bs) == 0 then bs else TrimFront(bs[SpaceWidth(bs)..])
  }

  predicate EndsWithSpace(bs: seq<byte>, width: nat) {
    0 < width <= |bs| && SpaceWidth(bs[|bs| - width..]) == width
  }

  function TrimBack(bs: seq<byte>): seq<byte>
    decreases |bs|
  {
    if EndsWithSpace(bs, 1) then TrimBack(bs[..|bs| - 1])
    else if EndsWithSpace(bs, 2) then TrimBack(bs[..|bs| - 2])
    else if EndsWithSpace(bs, 3) then TrimBack(bs[..|bs| - 3])
    else bs
  }

  function LowerAscii(b: byte): byte {
    if 0x41 <= b <= 0x5A then b + 0x20 else b
  }

  predicate EqIgnoreAsciiCase(a: seq<byte>, b: seq<byte>) {
    |a| == |b| && forall i :: 0 <= i < |a| ==> LowerAscii(a[i]) == LowerAscii(b[i])
  }

  function ColonAt(line: seq<byte>): (i: nat)
    ensures i <= |line|
    ensures COLON !in line[..i]
    ensures i < |line| ==> line[i] == COLON
  {
    if line == [] || line[0] == COLON then 0 else 1 + ColonAt(line[1..])
  }

  predicate IsContentLength(line: seq<byte>) {
    ColonAt(line) < |line| && EqIgnoreAsciiCase(line[..ColonAt(line)], ContentLengthName())
  }

  /** The length known after a header line: only `Content-Length` changes it. */
  function AfterLine(line: seq<byte>, known: Option<usize>): Option<usize> {
    if IsContentLength(line) then ParseUsize(TrimBack(TrimFront(line[ColonAt(line) + 1..]))) else known
  }

  datatype Outcome =
    | Body(bytes: seq<byte>)
    | EndOfStream
    | InvalidText
    | MissingLength
    | UnexpectedEnd

  datatype Reading = Reading(outcome: Outcome, rest: seq<byte>)

  predicate IsBlankLine(line: seq<byte>) {
    line == CRLF || line == [LF]
  }

  /** One call of the frame reader on everything still to come on the stream. */
  function ReadFrom(input: seq<byte>, known: Option<usize>): (r: Reading)
    ensures |r.rest| <= |input|
    ensures r.outcome.Body? ==> |r.rest| < |input|
    decreases |input|
  {
    if input == [] then Reading(EndOfStream, [])
    else
      var line, rest := input[..LineLength(input)], input[LineLength(input)..];
      if !ValidUtf8(line) then Reading(InvalidText, rest)
      else if !IsBlankLine(line) then ReadFrom(rest, AfterLine(line, known))
      else if known.None? then Reading(MissingLength, rest)
      else if |rest| < known.value then Reading(UnexpectedEnd, [])
      else Reading(Body(rest[..known.value]), rest[known.value..])
  }

  function ReadFrame(input: seq<byte>): Reading {
    ReadFrom(input, None)
  }

  /** The buffered stream both ends share: written bytes queue up until read. */
  class Stream {
    var pending: seq<byte>

    constructor ()
      ensures pending == []
    {
      pending := [];
    }

    method ReadLine() returns (line: seq<byte>)
      modifies this
      ensures line == old(pending)[..LineLength(old(pending))]
      ensures pending == old(pending)[LineLength(old(pending))..]
    {
      var n := LineLength(pending);
      line := pending[..n];
      pending := pending[n..];
    }

    /** The header loop and the exact body read. */
    method ReadJsonRpcFrame() returns (outcome: Outcome)
      modifies this
      ensures Reading(outcome, pending) == ReadFrame(old(pending))
    {
      var contentLength: Option<usize> := None;
      while true
        invariant ReadFrom(pending, contentLength) == ReadFrame(old(pending))
        decreases |pending|
      {
        if pending == [] {
          return EndOfStream;
        }
        var line := ReadLine();
        if !ValidUtf8(line) {
          return InvalidText;
        }
        if IsBlankLine(line) {
          break;
        }
        if IsContentLength(line) {
          contentLength := ParseUsize(TrimBack(TrimFront(line[ColonAt(line) + 1..])));
        }
      }
      if contentLength.None? {
        return MissingLength;
      }
      if |pending| < contentLength.value {
        pending := [];
        return UnexpectedEnd;
      }
      outcome := Body(pending[..contentLength.value]);
      pending := pending[contentLength.value..];
    }

    method WriteJson(body: seq<byte>)
      modifies this
      ensures pending == old(pending) + Frame(body)
    {
      pending := pending + Header(|body|) + CRLF;
      pending := pending + body;
    }
  }

  // ----- round trips

  /** A complete header line: one line feed, at its end, and not the blank line. */
  predicate IsHeaderLine(line: seq<byte>) {
    && line != [] && line[|line| - 1] == LF && LF !in line[..|line| - 1]
    && ValidUtf8(line) && !IsBlankLine(line)
  }

  lemma {:induction false} LineLengthOf(line: seq<byte>, rest: seq<byte>)
    requires line != [] && line[|line| - 1] == LF && LF !in line[..|line| - 1]
    ensures LineLength(line + rest) == |line|
    decreases |line|
  {
    if |line| > 1 {
      assert line[0] in line[..|line| - 1];
      assert (line + rest)[1..] == line[1..] + rest;
      forall i | 0 <= i < |line| - 2
        ensures line[1..][i] != LF
      {
        assert line[i + 1] in line[..|line| - 1];
      }
      LineLengthOf(line[1..], rest);
    }
  }

  lemma ReadHeaderLine(line: seq<byte>, rest: seq<byte>, known: Option<usize>)
    requires IsHeaderLine(line)
    ensures ReadFrom(line + rest, known) == ReadFrom(rest, AfterLine(line, known))
  {
    LineLengthOf(line, rest);
    assert (line + rest)[..|line|] == line && (line + rest)[|line|..] == rest;
  }

  lemma ReadBody(body: seq<byte>, rest: seq<byte>)
    requires |body| <= USIZE_MAX
    ensures ReadFrom(CRLF + (body + rest), Some(|body|)) == Reading(Body(body), rest)
  {
    var input := CRLF + (body + rest);
    LineLengthOf(CRLF, body + rest);
    AsciiIsUtf8(CRLF);
    assert input[..2] == CRLF && input[2..] == body + rest;
    assert (body + rest)[..|body|] == body && (body + rest)[|body|..] == rest;
  }

  lemma {:induction false} ColonAtOf(name: seq<byte>, tail: seq<byte>)
    requires COLON !in name
    ensures ColonAt(name + [COLON] + tail) == |name|
  {
    var line := name + [COLON] + tail;
    if name != [] {
      assert line[1..] == name[1..] + [COLON] + tail;
      ColonAtOf(name[1..], tail);
    }
  }

  lemma TrimBackLineEnd(bs: seq<byte>, b: byte)
    requires b == CR || b == LF
    ensures TrimBack(bs + [b]) == TrimBack(bs)
  {
    var longer := bs + [b];
    assert longer[|longer| - 1..] == [b] && longer[..|longer| - 1] == bs;
  }

  lemma NoSpaceAtDigit(ds: seq<byte>, width: nat)
    requires forall i :: 0 <= i < |ds| ==> IsDigit(ds[i])
    ensures !EndsWithSpace(ds, width)
  {
    if 0 < width <= |ds| {
      assert ds[|ds| - width..][0] == ds[|ds| - width];
    }
  }

  lemma TrimFrontSpace(bs: seq<byte>)
    requires bs != [] && IsDigit(bs[0])
    ensures TrimFront([0x20] + bs) == bs
  {
    var longer := [0x20] + bs;
    assert SpaceWidth(longer) == 1 && longer[1..] == bs && SpaceWidth(bs) == 0;
  }

  lemma TrimBackDigits(ds: seq<byte>)
    requires ds != [] && forall i :: 0 <= i < |ds| ==> IsDigit(ds[i])
    ensures TrimBack(ds) == ds
  {
    NoSpaceAtDigit(ds, 1);
    NoSpaceAtDigit(ds, 2);
    NoSpaceAtDigit(ds, 3);
  }

  lemma TrimmedDigits(ds: seq<byte>)
    requires ds != [] && forall i :: 0 <= i < |ds| ==> IsDigit(ds[i])
    ensures TrimBack(TrimFront([0x20] + ds + CRLF)) == ds
  {
    assert [0x20] + ds + CRLF == [0x20] + (ds + CRLF);
    TrimFrontSpace(ds + CRLF);
    assert ds + CRLF == ds + [CR] + [LF];
    TrimBackLineEnd(ds + [CR], LF);
    TrimBackLineEnd(ds, CR);
    TrimBackDigits(ds);
  }

  lemma HeaderIsHeaderLine(n: usize)
    ensures IsHeaderLine(Header(n))
    ensures forall known :: AfterLine(Header(n), known) == Some(n)
  {
    var line, name, ds := Header(n), ContentLengthName(), Decimal(n);
    var tail := [0x20] + ds + CRLF;
    assert line == name + [COLON] + tail;
    assert |name| == 14 && name[0] == 0x43;
    assert forall i :: 0 <= i < |name| ==> name[i] != COLON && name[i] != LF && name[i] < 0x80;
    forall i | 0 <= i < |line|
      ensures line[i] < 0x80
      ensures i < |line| - 1 ==> line[i] != LF
    {
      if i < |name| {
        assert line[i] == name[i];
      } else if i > |name| + 1 && i < |line| - 2 {
        assert line[i] == ds[i - |name| - 2];
      }
    }
    AsciiIsUtf8(line);
    ColonAtOf(name, tail);
    assert line[..|name|] == name && line[|name| + 1..] == tail;
    TrimmedDigits(ds);
    DecimalRoundTrip(n);
  }

  function Joined(lines: seq<seq<byte>>): seq<byte> {
    if lines == [] then [] else lines[0] + Joined(lines[1..])
  }

  /** Header lines the reader skips, such as `Content-Type`. */
  predicate OtherHeaders(lines: seq<seq<byte>>) {
    forall i :: 0 <= i < |lines| ==> IsHeaderLine(lines[i]) && !IsContentLength(lines[i])
  }

  lemma {:induction false} SkipOtherHeaders(lines: seq<seq<byte>>, rest: seq<byte>, known: Option<usize>)
    requires OtherHeaders(lines)
    ensures ReadFrom(Joined(lines) + rest, known) == ReadFrom(rest, known)
  {
    if lines == [] {
      assert Joined(lines) + rest == rest;
    } else {
      assert Joined(lines) + rest == lines[0] + (Joined(lines[1..]) + rest);
      ReadHeaderLine(lines[0], Joined(lines[1..]) + rest, known);
      SkipOtherHeaders(lines[1..], rest, known);
    }
  }

  lemma Regroup(a: seq<byte>, b: seq<byte>, c: seq<byte>, d: seq<byte>, e: seq<byte>, f: seq<byte>)
    ensures a + b + c + d + e + f == a + (b + (c + (d + (e + f))))
  {
  }

  /** One frame is read back exactly, whatever follows it on the stream and whatever
      other headers surround its length. */
  lemma FrameRoundTrip(before: seq<seq<byte>>, after: seq<seq<byte>>, body: seq<byte>, rest: seq<byte>)
    requires OtherHeaders(before) && OtherHeaders(after) && |body| <= USIZE_MAX
    ensures ReadFrame(Joined(before) + Header(|body|) + Joined(after) + CRLF + body + rest) == Reading(Body(body), rest)
  {
    var header := Header(|body|);
    var blank := CRLF + (body + rest);
    var tail := Joined(after) + blank;
    Regroup(Joined(before), header, Joined(after), CRLF, body, rest);
    calc {
      ReadFrom(Joined(before) + (header + tail), None);
      { SkipOtherHeaders(before, header + tail, None); }
      ReadFrom(header + tail, None);
      { HeaderIsHeaderLine(|body|); ReadHeaderLine(header, tail, None); }
      ReadFrom(tail, Some(|body|));
      { SkipOtherHeaders(after, blank, Some(|body|)); }
      ReadFrom(blank, Some(|body|));
      { ReadBody(body, rest); }
      Reading(Body(body), rest);
    }
  }

  lemma PlainFrame(body: seq<byte>, rest: seq<byte>)
    requires |body| <= USIZE_MAX
    ensures ReadFrame(Frame(body) + rest) == Reading(Body(body), rest)
  {
    assert Joined([]) + Header(|body|) + Joined([]) + CRLF + body + rest == Frame(body) + rest;
    FrameRoundTrip([], [], body, rest);
  }

  /** Every body the reader loop hands over before it stops, and why it stops. */
  function ReadAll(input: seq<byte>): (seq<seq<byte>>, Outcome)
    decreases |input|
  {
    var reading := ReadFrame(input);
    if reading.outcome.Body? then
      var (bodies, end) := ReadAll(reading.rest);
      ([reading.outcome.bytes] + bodies, end)
    else ([], reading.outcome)
  }

  /** Reading the concatenated frames yields the same bodies, then the end of the stream. */
  lemma {:induction false} FramesRoundTrip(bodies: seq<seq<byte>>)
    requires forall i :: 0 <= i < |bodies| ==> |bodies[i]| <= USIZE_MAX
    ensures ReadAll(Frames(bodies)) == (bodies, EndOfStream)
    decreases |bodies|
  {
    if bodies != [] {
      PlainFrame(bodies[0], Frames(bodies[1..]));
      FramesRoundTrip(bodies[1..]);
      assert bodies == [bodies[0]] + bodies[1..];
    }
  }

  lemma {:induction false} UnfinishedLine(input: seq<byte>)
    requires LF !in input
    ensures LineLength(input) == |input|
  {
    if input != [] {
      assert input[0] in input;
      UnfinishedLine(input[1..]);
    }
  }

  lemma CutInLine(part: seq<byte>, known: Option<usize>)
    requires LF !in part && forall i :: 0 <= i < |part| ==> part[i] < 0x80
    ensures ReadFrom(part, known).outcome == EndOfStream
  {
    UnfinishedLine(part);
    AsciiIsUtf8(part);
    if part != [] {
      assert part[..|part|] == part && part[|part|..] == [];
      assert part[|part| - 1] in part;
    }
  }

  lemma CutInHeader(n: usize, k: nat)
    requires k < |Header(n)|
    ensures ReadFrame(Header(n)[..k]).outcome == EndOfStream
  {
    var header := Header(n);
    HeaderIsHeaderLine(n);
    forall i | 0 <= i < k
      ensures header[..k][i] != LF && header[..k][i] < 0x80
    {
      assert header[i] in header[..|header| - 1];
      HeaderIsAscii(n, i);
    }
    CutInLine(header[..k], None);
  }

  lemma CutInBody(part: seq<byte>, known: usize)
    requires |part| < known
    ensures ReadFrom(CRLF + part, Some(known)).outcome == UnexpectedEnd
  {
    LineLengthOf(CRLF, part);
    AsciiIsUtf8(CRLF);
    assert (CRLF + part)[..2] == CRLF && (CRLF + part)[2..] == part;
  }

  lemma CutPieces(header: seq<byte>, body: seq<byte>, k: nat)
    requires k <= |header| + 2 + |body|
    ensures k < |header| ==> (header + CRLF + body)[..k] == header[..k]
    ensures |header| <= k < |header| + 2 ==> (header + CRLF + body)[..k] == header + CRLF[..k - |header|]
    ensures |header| + 2 <= k ==> (header + CRLF + body)[..k] == header + (CRLF + body[..k - |header| - 2])
  {
  }

  /** A frame cut short is never taken for a message: it ends the stream inside the
      headers and is an error inside the body. */
  lemma TruncatedFrame(body: seq<byte>, k: nat)
    requires k < |Frame(body)| && |body| <= USIZE_MAX
    ensures ReadFrame(Frame(body)[..k]).outcome == if k < |Header(|body|)| + 2 then EndOfStream else UnexpectedEnd
  {
    var header := Header(|body|);
    CutPieces(header, body, k);
    if k < |header| {
      CutInHeader(|body|, k);
    } else {
      var rest := if k < |header| + 2 then CRLF[..k - |header|] else CRLF + body[..k - |header| - 2];
      assert ReadFrame(header + rest) == ReadFrom(rest, Some(|body|)) by {
        HeaderIsHeaderLine(|body|);
        ReadHeaderLine(header, rest, None);
      }
      if k < |header| + 2 {
        CutInLine(rest, Some(|body|));
      } else {
        CutInBody(body[..k - |header| - 2], |body|);
      }
    }
  }

  lemma HeaderIsAscii(n: nat, i: nat)
    requires i < |Header(n)|
    ensures Header(n)[i] < 0x80
  {
    var name, ds := ContentLengthName(), Decimal(n);
    if |name| + 2 <= i < |name| + 2 + |ds| {
      assert Header(n)[i] == ds[i - |name| - 2];
    } else if i < |name| {
      assert Header(n)[i] == name[i];
    }
  }
}
