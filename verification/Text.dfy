/** Strings as sequences of Unicode scalar values. */
module Text {
  /** The Unicode White_Space property, which `trim` and `is_whitespace` use. */
  predicate IsWhitespace(c: char) {
    || '\U{0009}' <= c <= '\U{000D}' || c == ' ' || c == '\U{0085}' || c == '\U{00A0}' || c == '\U{1680}'
    || '\U{2000}' <= c <= '\U{200A}' || c == '\U{2028}' || c == '\U{2029}' || c == '\U{202F}'
    || c == '\U{205F}' || c == '\U{3000}'
  }

  /** What `trim().is_empty()` tests. */
  predicate Blank(s: string) {
    forall i :: 0 <= i < |s| ==> IsWhitespace(s[i])
  }

  function TrimStart(s: string): string {
    if s != [] && IsWhitespace(s[0]) then TrimStart(s[1..]) else s
  }

  function TrimEnd(s: string): string {
    if s != [] && IsWhitespace(s[|s| - 1]) then TrimEnd(s[..|s| - 1]) else s
  }

  function Trim(s: string): string {
    TrimEnd(TrimStart(s))
  }

  predicate StartsWith(s: string, prefix: string) {
    prefix <= s
  }

  function IndexOf(s: string, c: char): (i: nat)
    ensures i <= |s|
    ensures c !in s[..i]
    ensures i < |s| ==> s[i] == c
  {
    if s == [] || s[0] == c then 0 else 1 + IndexOf(s[1..], c)
  }

  function StripCarriageReturn(line: string): string {
    if line != [] && line[|line| - 1] == '\r' then line[..|line| - 1] else line
  }

  /** `str::lines`: split at line feeds, drop one trailing carriage return from
      each terminated line, and emit no empty last line. */
  function Lines(s: string): seq<string>
    decreases |s|
  {
    if s == [] then []
    else
      var end := IndexOf(s, '\n');
      if end == |s| then [s]
      else [StripCarriageReturn(s[..end])] + Lines(s[end + 1..])
  }

  datatype Ordering = Less | Equal | Greater {
    function Then(next: Ordering): Ordering {
      if Equal? then next else this
    }

    function Reverse(): Ordering {
      match this
      case Less => Greater
      case Equal => Equal
      case Greater => Less
    }
  }

  function CompareInt(a: int, b: int): Ordering {
    if a < b then Less else if a == b then Equal else Greater
  }

  function CompareReal(a: real, b: real): Ordering {
    if a < b then Less else if a == b then Equal else Greater
  }

  /** Lexicographic order by scalar value, which is also the byte order of UTF-8. */
  function CompareString(a: string, b: string): Ordering {
    if a == [] || b == [] then CompareInt(|a|, |b|)
    else if a[0] == b[0] then CompareString(a[1..], b[1..])
    else if a[0] < b[0] then Less
    else Greater
  }

  lemma {:induction false} CompareStringReverses(a: string, b: string)
    ensures CompareString(b, a) == CompareString(a, b).Reverse()
  {
    if a != [] && b != [] && a[0] == b[0] {
      CompareStringReverses(a[1..], b[1..]);
    }
  }

  lemma {:induction false} CompareStringEqual(a: string, b: string)
    ensures CompareString(a, b) == Equal <==> a == b
  {
    if a != [] && b != [] && a[0] == b[0] {
      CompareStringEqual(a[1..], b[1..]);
      assert a == [a[0]] + a[1..] && b == [b[0]] + b[1..];
    }
  }

  lemma {:induction false} CompareStringTransitive(a: string, b: string, c: string)
    requires CompareString(a, b) == Less && CompareString(b, c) == Less
    ensures CompareString(a, c) == Less
  {
    if a != [] && b != [] && c != [] && a[0] == b[0] == c[0] {
      CompareStringTransitive(a[1..], b[1..], c[1..]);
    }
  }

  lemma BlankAround(s: string, c: char)
    ensures Blank(s + [c]) <==> Blank(s) && IsWhitespace(c)
    ensures Blank([c] + s) <==> Blank(s) && IsWhitespace(c)
  {
    assert (s + [c])[|s|] == c && ([c] + s)[0] == c;
    assert forall i :: 0 <= i < |s| ==> (s + [c])[i] == s[i] && ([c] + s)[i + 1] == s[i];
  }

  lemma {:induction false} TrimEndFacts(s: string)
    ensures TrimEnd(s) == [] <==> Blank(s)
    ensures TrimEnd(s) != [] ==> !IsWhitespace(TrimEnd(s)[|TrimEnd(s)| - 1]) && TrimEnd(s)[0] == s[0]
  {
    if s != [] && IsWhitespace(s[|s| - 1]) {
      TrimEndFacts(s[..|s| - 1]);
      BlankAround(s[..|s| - 1], s[|s| - 1]);
      assert s == s[..|s| - 1] + [s[|s| - 1]];
    }
  }

  lemma {:induction false} TrimStartFacts(s: string)
    ensures Blank(TrimStart(s)) <==> Blank(s)
    ensures TrimStart(s) != [] ==> !IsWhitespace(TrimStart(s)[0])
  {
    if s != [] && IsWhitespace(s[0]) {
      TrimStartFacts(s[1..]);
      BlankAround(s[1..], s[0]);
      assert s == [s[0]] + s[1..];
    }
  }

  lemma TrimmedEmptyIsBlank(s: string)
    ensures Trim(s) == [] <==> Blank(s)
  {
    TrimStartFacts(s);
    TrimEndFacts(TrimStart(s));
  }

  lemma TrimIsStable(s: string)
    ensures Trim(Trim(s)) == Trim(s)
  {
    TrimStartFacts(s);
    TrimEndFacts(TrimStart(s));
  }
}
