/** Which characters and lines the token estimate tells apart, and what each costs. */
module TokenClasses {
  import opened Alphabet
  import opened Text
  import opened Tokens

  // ----- characters

  lemma CharacterClasses(c: char)
    ensures IsCyrillic(c) <==> 1024 <= c as int < 1280
    ensures IsAsciiDigit(c) <==> c in "0123456789"
    ensures IsAsciiLetter(c) <==> exists k :: 0 <= k < 26 && (c == LETTERS[k] || c == CAPITALS[k])
    ensures IsSymbolHeavy(c) <==> IsCodeSymbol(c) || c == '\\' || c == '/'
    ensures IsCodeSymbol(c) <==>
      || c == '{' || c == '}' || c == '[' || c == ']' || c == '(' || c == ')' || c == ';' || c == '=' || c == '<'
      || c == '>' || c == '|' || c == '&' || c == '$' || c == ':' || c == '`'
  {
    LettersInOrder();
    if 'a' <= c <= 'z' {
      assert LETTERS[c as int - 'a' as int] == c;
    } else if 'A' <= c <= 'Z' {
      assert CAPITALS[c as int - 'A' as int] == c;
    }
  }

  // ----- lines

  const MARKDOWN: seq<string> := ["#", "- ", "* ", "> ", "```", "|"]

  const KEYWORDS: seq<string> := [
    "fn", "let", "pub", "use", "impl", "struct", "enum", "match", "return", "const", "import", "export", "function",
    "class", "interface", "type", "async", "await"]

  /** White space, then `word`, and then the rest of the line. */
  predicate OpensWith(line: string, n: nat, word: string) {
    n + |word| <= |line| && Blank(line[..n]) && line[n..n + |word|] == word
  }

  lemma {:induction false} TrimStartIs(s: string) returns (n: nat)
    ensures n <= |s| && Blank(s[..n]) && TrimStart(s) == s[n..]
    ensures n < |s| ==> !IsWhitespace(s[n])
  {
    if s != [] && IsWhitespace(s[0]) {
      var m := TrimStartIs(s[1..]);
      n := m + 1;
      BlankAround(s[1..][..m], s[0]);
      assert s[..n] == [s[0]] + s[1..][..m];
    } else {
      n := 0;
    }
  }

  lemma {:induction false} TrimEndIs(s: string) returns (m: nat)
    ensures m <= |s| && Blank(s[m..]) && TrimEnd(s) == s[..m]
    ensures m > 0 ==> !IsWhitespace(s[m - 1])
  {
    if s != [] && IsWhitespace(s[|s| - 1]) {
      var shorter := s[..|s| - 1];
      m := TrimEndIs(shorter);
      BlankAround(shorter[m..], s[|s| - 1]);
      assert s[m..] == shorter[m..] + [s[|s| - 1]];
    } else {
      m := |s|;
    }
  }

  /** White space in front of a word that begins with something else is all there is. */
  lemma OpeningIsTrimmed(line: string, n: nat, word: string, start: nat)
    requires word != [] && !IsWhitespace(word[0]) && OpensWith(line, n, word)
    requires start <= |line| && Blank(line[..start]) && (start < |line| ==> !IsWhitespace(line[start]))
    ensures n == start
  {
    assert line[n] == line[n..n + |word|][0] == word[0];
    assert forall i :: 0 <= i < start ==> line[i] == line[..start][i];
    assert forall i :: 0 <= i < n ==> line[i] == line[..n][i];
  }

  lemma StartsTrimmed(line: string, word: string)
    requires word != [] && !IsWhitespace(word[0])
    ensures StartsWith(TrimStart(line), word) <==> exists n: nat :: OpensWith(line, n, word)
  {
    var start := TrimStartIs(line);
    if StartsWith(TrimStart(line), word) {
      assert OpensWith(line, start, word);
    }
    if n: nat :| OpensWith(line, n, word) {
      OpeningIsTrimmed(line, n, word, start);
    }
  }

  /** A line counts as Markdown exactly when one of six markers follows its white space. */
  lemma MarkdownLineIs(line: string)
    ensures IsMarkdownLine(line) <==> exists n: nat, k: nat :: 0 <= k < 6 && OpensWith(line, n, MARKDOWN[k])
  {
    forall k | 0 <= k < 6
      ensures StartsWith(TrimStart(line), MARKDOWN[k]) <==> exists n: nat :: OpensWith(line, n, MARKDOWN[k])
    {
      StartsTrimmed(line, MARKDOWN[k]);
    }
    assert IsMarkdownLine(line) <==> exists k :: 0 <= k < 6 && StartsWith(TrimStart(line), MARKDOWN[k]) by {
      assert StartsWith(TrimStart(line), MARKDOWN[0]) || StartsWith(TrimStart(line), MARKDOWN[1])
          || StartsWith(TrimStart(line), MARKDOWN[2]) || StartsWith(TrimStart(line), MARKDOWN[3])
          || StartsWith(TrimStart(line), MARKDOWN[4]) || StartsWith(TrimStart(line), MARKDOWN[5])
          <==> IsMarkdownLine(line);
    }
  }

  /** `Trim` keeps what is between the first and the last character that is no white space. */
  lemma TrimIs(line: string) returns (start: nat, end: nat)
    ensures start <= end <= |line| && Trim(line) == line[start..end]
    ensures Blank(line[..start]) && Blank(line[end..])
    ensures start < end ==> !IsWhitespace(line[start]) && !IsWhitespace(line[end - 1])
    ensures start == end ==> Blank(line)
  {
    start := TrimStartIs(line);
    var rest := line[start..];
    var m := TrimEndIs(rest);
    end := start + m;
    assert rest[..m] == line[start..end] && rest[m..] == line[end..];
    assert forall i :: m <= i < |rest| ==> rest[i] == rest[m..][i - m];
    if rest == [] {
      assert line[..start] == line;
    } else {
      assert rest[0] == line[start] && rest[m - 1] == line[end - 1];
    }
  }

  lemma KeywordOpens(line: string, word: string)
    requires |word| > 1 && !IsWhitespace(word[0]) && word[|word| - 1] == ' '
    ensures StartsWith(Trim(line), word) <==> exists n: nat :: OpensWith(line, n, word) && !Blank(line[n + |word|..])
  {
    var start, end := TrimIs(line);
    if StartsWith(Trim(line), word) {
      var n := start + |word|;
      assert line[start..end][..|word|] == line[start..n] == word;
      assert line[n - 1] == word[|word| - 1];
      assert line[end - 1] == line[n..][end - 1 - n];
      assert OpensWith(line, start, word);
    }
    if n: nat :| OpensWith(line, n, word) && !Blank(line[n + |word|..]) {
      var i :| 0 <= i < |line[n + |word|..]| && !IsWhitespace(line[n + |word|..][i]);
      var at := n + |word| + i;
      assert line[at] == line[n + |word|..][i];
      assert forall p :: end <= p < |line| ==> line[p] == line[end..][p - end];
      OpeningIsTrimmed(line, n, word, start);
      assert line[start..end][..|word|] == line[n..n + |word|];
    }
  }

  lemma MarkersAreKeywords(k: nat)
    requires k < 18
    ensures |CODE_MARKERS| == |KEYWORDS| == 18
    ensures CODE_MARKERS[k] == KEYWORDS[k] + " "
    ensures !IsWhitespace(KEYWORDS[k][0])
  {
  }

  lemma {:induction false} CountConcat(a: string, b: string, p: char -> bool)
    ensures Count(a + b, p) == Count(a, p) + Count(b, p)
  {
    if b == [] {
      assert a + b == a;
    } else {
      CountConcat(a, b[..|b| - 1], p);
      assert (a + b)[..|a + b| - 1] == a + b[..|b| - 1];
    }
  }

  lemma {:induction false} NoSymbolInBlank(s: string)
    requires Blank(s)
    ensures Count(s, IsCodeSymbol) == 0
  {
    if s != [] {
      NoSymbolInBlank(s[..|s| - 1]);
    }
  }

  lemma SymbolsOfTrimmed(line: string)
    ensures Count(Trim(line), IsCodeSymbol) == Count(line, IsCodeSymbol)
  {
    var start, end := TrimIs(line);
    assert line == line[..start] + (line[start..end] + line[end..]);
    CountConcat(line[..start], line[start..end] + line[end..], IsCodeSymbol);
    CountConcat(line[start..end], line[end..], IsCodeSymbol);
    NoSymbolInBlank(line[..start]);
    NoSymbolInBlank(line[end..]);
  }

  /** There are `n` places with such a character in `s`. */
  predicate Has(s: string, p: char -> bool, n: nat)
    decreases n
  {
    n == 0 || exists k :: 0 <= k < |s| && p(s[k]) && Has(s[..k], p, n - 1)
  }

  lemma {:induction false} HasMore(s: string, t: string, p: char -> bool, n: nat)
    requires Has(s, p, n) && s <= t
    ensures Has(t, p, n)
  {
    if n > 0 {
      var k :| 0 <= k < |s| && p(s[k]) && Has(s[..k], p, n - 1);
      assert t[..k] == s[..k];
    }
  }

  lemma {:induction false} CountedExactly(s: string, p: char -> bool, n: nat)
    ensures Count(s, p) >= n <==> Has(s, p, n)
    decreases |s|
  {
    if s != [] && n > 0 {
      var last := |s| - 1;
      CountedExactly(s[..last], p, n);
      CountedExactly(s[..last], p, n - 1);
      if Has(s[..last], p, n) {
        HasMore(s[..last], s, p, n);
      }
      if Has(s, p, n) {
        var k :| 0 <= k < |s| && p(s[k]) && Has(s[..k], p, n - 1);
        if k < last {
          assert s[..last][..k] == s[..k];
        }
      }
    }
  }

  ghost predicate OpensWithKeyword(line: string) {
    exists n: nat, k: nat :: 0 <= k < 18 && OpensWith(line, n, KEYWORDS[k] + " ")
                             && !Blank(line[n + |KEYWORDS[k]| + 1..])
  }

  lemma KeywordLineIs(line: string)
    ensures OpensWithKeyword(line) <==>
      exists k :: 0 <= k < |CODE_MARKERS| && StartsWith(Trim(line), CODE_MARKERS[k])
  {
    MarkersAreKeywords(0);
    forall k | 0 <= k < 18
      ensures StartsWith(Trim(line), CODE_MARKERS[k]) <==>
        exists n: nat :: OpensWith(line, n, KEYWORDS[k] + " ") && !Blank(line[n + |KEYWORDS[k]| + 1..])
    {
      MarkersAreKeywords(k);
      KeywordOpens(line, CODE_MARKERS[k]);
    }
  }

  /** A line counts as code exactly when, after white space, it begins with a keyword that is
      followed by a space and later by something else, or has three code symbols. */
  lemma CodeLikeLineIs(line: string)
    ensures IsCodeLikeLine(line) <==> OpensWithKeyword(line) || Has(line, IsCodeSymbol, 3)
  {
    SymbolsOfTrimmed(line);
    CountedExactly(line, IsCodeSymbol, 3);
    KeywordLineIs(line);
    MarkersStartTrimmed(line);
  }

  lemma MarkersStartTrimmed(line: string)
    ensures Trim(line) == [] ==> forall k :: 0 <= k < |CODE_MARKERS| ==> !StartsWith(Trim(line), CODE_MARKERS[k])
  {
    forall k | 0 <= k < |CODE_MARKERS| && Trim(line) == []
      ensures !StartsWith(Trim(line), CODE_MARKERS[k])
    {
      MarkersAreKeywords(k);
    }
  }

  // ----- costs

  lemma OneMoreShare(n: nat, divisor: real)
    requires divisor > 0.0
    ensures (n + 1) as real / divisor == n as real / divisor + 1.0 / divisor
  {
  }

  /** Nothing costs nothing. Each character of a line costs its share of a token, whatever the
      class of the line; a symbol and a Cyrillic letter cost their surcharge on top. */
  lemma CostOfOneMore(b: Breakdown, model: LanguageModel)
    requires KnownModel(model)
    ensures Weighted(Breakdown(0, 0, 0, 0, 0, 0, 0, 0), model) == 0.0
    ensures Weighted(b.(codeLikeChars := b.codeLikeChars + 1), model) == Weighted(b, model) + 1.0 / model.charsPerToken
    ensures Weighted(b.(markdownChars := b.markdownChars + 1), model) == Weighted(b, model) + 1.0 / model.charsPerToken
    ensures Weighted(b.(proseChars := b.proseChars + 1), model) == Weighted(b, model) + 1.0 / model.charsPerToken
    ensures Weighted(b.(symbolChars := b.symbolChars + 1), model) == Weighted(b, model) + 1.0 / model.symbolDivisor
    ensures Weighted(b.(cyrillicChars := b.cyrillicChars + 1), model) == Weighted(b, model) + 1.0 / 12.0
    ensures forall w, a, d ::
      Weighted(b.(whitespaceChars := w, asciiLetters := a, digits := d), model) == Weighted(b, model)
  {
    var n := b.codeLikeChars + b.proseChars + b.markdownChars;
    OneMoreShare(n, model.charsPerToken);
    assert b.codeLikeChars + 1 + b.proseChars + b.markdownChars == n + 1;
    assert b.codeLikeChars + (b.proseChars + 1) + b.markdownChars == n + 1;
    OneMoreShare(b.symbolChars, model.symbolDivisor);
    OneMoreShare(b.cyrillicChars, 12.0);
  }
}
