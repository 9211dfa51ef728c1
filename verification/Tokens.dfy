/** The token estimate of a text, in exact arithmetic. */
module Tokens {
  import opened Alphabet
  import opened Machine
  import opened Text

  datatype LanguageModel = LanguageModel(charsPerToken: real, symbolDivisor: real)

  function LowerAscii(c: char): char {
    if 'A' <= c <= 'Z' then c - 'A' + 'a' else c
  }

  function Lowercase(s: string): string {
    seq(|s|, i requires 0 <= i < |s| => LowerAscii(s[i]))
  }

  predicate KnownModel(m: LanguageModel) {
    || m == LanguageModel(2.4, 12.0) || m == LanguageModel(3.3, 24.0) || m == LanguageModel(2.8, 16.0)
    || m == LanguageModel(3.0, 18.0) || m == LanguageModel(3.5, 20.0)
  }

  function GetLanguageModel(lang: string): (m: LanguageModel)
    ensures KnownModel(m)
  {
    var name := Lowercase(lang);
    if name == "rust" then LanguageModel(2.4, 12.0)
    else if name == "python" then LanguageModel(3.3, 24.0)
    else if name == "javascript" || name == "typescript" || name == "js" || name == "ts" then LanguageModel(2.8, 16.0)
    else if name == "go" then LanguageModel(3.0, 18.0)
    else LanguageModel(3.5, 20.0)
  }

  // ----- character and line classes

  predicate IsCyrillic(c: char) {
    '\U{0400}' <= c <= '\U{04FF}'
  }

  predicate IsSymbolHeavy(c: char) {
    c in "{}[]();=<>|&$:`\\/"
  }

  predicate IsCodeSymbol(c: char) {
    c in "{}[]();=<>|&$:`"
  }

  predicate IsAsciiLetter(c: char) {
    'a' <= c <= 'z' || 'A' <= c <= 'Z'
  }

  predicate IsAsciiDigit(c: char) {
    '0' <= c <= '9'
  }

  predicate IsMarkdownLine(line: string) {
    var trimmed := TrimStart(line);
    || StartsWith(trimmed, "#") || StartsWith(trimmed, "- ") || StartsWith(trimmed, "* ")
    || StartsWith(trimmed, "> ") || StartsWith(trimmed, "```") || StartsWith(trimmed, "|")
  }

  const CODE_MARKERS: seq<string> := [
    "fn ", "let ", "pub ", "use ", "impl ", "struct ", "enum ", "match ", "return ", "const ", "import ",
    "export ", "function ", "class ", "interface ", "type ", "async ", "await "]

  predicate IsCodeLikeLine(line: string) {
    var trimmed := Trim(line);
    && trimmed != []
    && ((exists i :: 0 <= i < |CODE_MARKERS| && StartsWith(trimmed, CODE_MARKERS[i]))
        || Count(trimmed, IsCodeSymbol) >= 3)
  }

  // ----- counting

  function Count(s: string, p: char -> bool): nat {
    if s == [] then 0 else Count(s[..|s| - 1], p) + (if p(s[|s| - 1]) then 1 else 0)
  }

  function CountAll(lines: seq<string>, p: char -> bool): nat {
    if lines == [] then 0 else CountAll(lines[..|lines| - 1], p) + Count(lines[|lines| - 1], p)
  }

  /** Total length of the lines in the class. */
  function LengthWhere(lines: seq<string>, q: string -> bool): nat {
    if lines == [] then 0
    else LengthWhere(lines[..|lines| - 1], q) + (if q(lines[|lines| - 1]) then |lines[|lines| - 1]| else 0)
  }

  datatype Breakdown = Breakdown(
    codeLikeChars: nat,
    markdownChars: nat,
    proseChars: nat,
    whitespaceChars: nat,
    symbolChars: nat,
    cyrillicChars: nat,
    asciiLetters: nat,
    digits: nat)

  function BreakdownOf(lines: seq<string>): Breakdown {
    Breakdown(
      LengthWhere(lines, line => !IsMarkdownLine(line) && IsCodeLikeLine(line)),
      LengthWhere(lines, IsMarkdownLine),
      LengthWhere(lines, line => !IsMarkdownLine(line) && !IsCodeLikeLine(line)),
      CountAll(lines, IsWhitespace),
      CountAll(lines, IsSymbolHeavy),
      CountAll(lines, IsCyrillic),
      CountAll(lines, IsAsciiLetter),
      CountAll(lines, IsAsciiDigit))
  }

  /** The character counters advanced by one character. */
  function Bump(b: Breakdown, c: char): Breakdown {
    b.(whitespaceChars := b.whitespaceChars + (if IsWhitespace(c) then 1 else 0),
       asciiLetters := b.asciiLetters + (if IsAsciiLetter(c) then 1 else 0),
       digits := b.digits + (if IsAsciiDigit(c) then 1 else 0),
       cyrillicChars := b.cyrillicChars + (if IsCyrillic(c) then 1 else 0),
       symbolChars := b.symbolChars + (if IsSymbolHeavy(c) then 1 else 0))
  }

  /** The character counters advanced by a whole line. */
  function AddCounts(b: Breakdown, line: string): Breakdown {
    b.(whitespaceChars := b.whitespaceChars + Count(line, IsWhitespace),
       asciiLetters := b.asciiLetters + Count(line, IsAsciiLetter),
       digits := b.digits + Count(line, IsAsciiDigit),
       cyrillicChars := b.cyrillicChars + Count(line, IsCyrillic),
       symbolChars := b.symbolChars + Count(line, IsSymbolHeavy))
  }

  lemma AddCountsNext(b: Breakdown, line: string, i: nat)
    requires i < |line|
    ensures AddCounts(b, line[..i + 1]) == Bump(AddCounts(b, line[..i]), line[i])
  {
    assert line[..i + 1][..i] == line[..i];
  }

  method CountLine(line: string, before: Breakdown) returns (b: Breakdown)
    ensures b == AddCounts(before, line)
  {
    b := before;
    for i := 0 to |line|
      invariant b == AddCounts(before, line[..i])
    {
      var ch := line[i];
      AddCountsNext(before, line, i);
      if IsWhitespace(ch) {
        b := b.(whitespaceChars := b.whitespaceChars + 1);
      }
      if IsAsciiLetter(ch) {
        b := b.(asciiLetters := b.asciiLetters + 1);
      }
      if IsAsciiDigit(ch) {
        b := b.(digits := b.digits + 1);
      }
      if IsCyrillic(ch) {
        b := b.(cyrillicChars := b.cyrillicChars + 1);
      }
      if IsSymbolHeavy(ch) {
        b := b.(symbolChars := b.symbolChars + 1);
      }
    }
    assert line[..|line|] == line;
  }

  function Classified(b: Breakdown, line: string): Breakdown {
    if IsMarkdownLine(line) then b.(markdownChars := b.markdownChars + |line|)
    else if IsCodeLikeLine(line) then b.(codeLikeChars := b.codeLikeChars + |line|)
    else b.(proseChars := b.proseChars + |line|)
  }

  lemma BreakdownNext(lines: seq<string>, i: nat)
    requires i < |lines|
    ensures BreakdownOf(lines[..i + 1]) == AddCounts(Classified(BreakdownOf(lines[..i]), lines[i]), lines[i])
  {
    assert lines[..i + 1][..i] == lines[..i];
  }

  method AnalyzeBreakdown(text: string) returns (b: Breakdown)
    ensures b == BreakdownOf(Lines(text))
  {
    var lines := Lines(text);
    b := Breakdown(0, 0, 0, 0, 0, 0, 0, 0);
    for i := 0 to |lines|
      invariant b == BreakdownOf(lines[..i])
    {
      BreakdownNext(lines, i);
      if IsMarkdownLine(lines[i]) {
        b := b.(markdownChars := b.markdownChars + |lines[i]|);
      } else if IsCodeLikeLine(lines[i]) {
        b := b.(codeLikeChars := b.codeLikeChars + |lines[i]|);
      } else {
        b := b.(proseChars := b.proseChars + |lines[i]|);
      }
      assert b == Classified(BreakdownOf(lines[..i]), lines[i]);
      b := CountLine(lines[i], b);
    }
    assert lines[..|lines|] == lines;
  }

  function Ceil(x: real): int {
    -((-x).Floor)
  }

  function Weighted(b: Breakdown, model: LanguageModel): real
    requires KnownModel(model)
  {
    (b.codeLikeChars + b.proseChars + b.markdownChars) as real / model.charsPerToken
    + b.symbolChars as real / model.symbolDivisor
    + b.cyrillicChars as real / 12.0
  }

  method EstimateTextForLanguage(text: string, lang: string) returns (tokens: nat)
    ensures text == [] ==> tokens == 0
    ensures text != [] ==> Max(1, |text| / 3) <= tokens <= (|text| + 1) / 2
    ensures tokens == Max(Ceil(Weighted(BreakdownOf(Lines(text)), GetLanguageModel(lang))),
                          if text == [] then 0 else Max(1, |text| / 3))
  {
    var breakdown := AnalyzeBreakdown(text);
    var model := GetLanguageModel(lang);
    var weighted := Ceil(Weighted(breakdown, model));
    var conservative := if |text| == 0 then 0 else Max(|text| / 3, 1);
    WeightedBound(text, breakdown, model);
    tokens := Max(weighted, conservative);
  }

  // ----- the facts the bound rests on

  function TotalLength(lines: seq<string>): nat {
    if lines == [] then 0 else TotalLength(lines[..|lines| - 1]) + |lines[|lines| - 1]|
  }

  /** Every line is counted in exactly one of the three classes. */
  lemma {:induction false} ClassesPartitionLines(lines: seq<string>)
    ensures var b := BreakdownOf(lines); b.codeLikeChars + b.markdownChars + b.proseChars == TotalLength(lines)
  {
    if lines != [] {
      ClassesPartitionLines(lines[..|lines| - 1]);
    }
  }

  lemma {:induction false} DisjointCounts(s: string, p: char -> bool, q: char -> bool)
    requires forall c :: !(p(c) && q(c))
    ensures Count(s, p) + Count(s, q) <= |s|
  {
    if s != [] {
      DisjointCounts(s[..|s| - 1], p, q);
    }
  }

  /** No character is both symbol-heavy and Cyrillic. */
  lemma {:induction false} SymbolsAndCyrillicDisjoint(lines: seq<string>)
    ensures CountAll(lines, IsSymbolHeavy) + CountAll(lines, IsCyrillic) <= TotalLength(lines)
  {
    if lines != [] {
      SymbolsAndCyrillicDisjoint(lines[..|lines| - 1]);
      DisjointCounts(lines[|lines| - 1], IsSymbolHeavy, IsCyrillic);
    }
  }

  lemma {:induction false} TotalLengthCons(first: string, rest: seq<string>)
    ensures TotalLength([first] + rest) == |first| + TotalLength(rest)
  {
    if rest == [] {
      assert [first] + rest == [first];
      assert [first][..0] == [];
    } else {
      assert ([first] + rest)[..|rest|] == [first] + rest[..|rest| - 1];
      TotalLengthCons(first, rest[..|rest| - 1]);
    }
  }

  /** Lines drop their terminators and nothing else. */
  lemma {:induction false} LinesNoLongerThanText(text: string)
    ensures TotalLength(Lines(text)) <= |text|
    decreases |text|
  {
    if text != [] {
      var end := IndexOf(text, '\n');
      if end == |text| {
        TotalLengthCons(text, []);
      } else {
        LinesNoLongerThanText(text[end + 1..]);
        TotalLengthCons(StripCarriageReturn(text[..end]), Lines(text[end + 1..]));
      }
    }
  }

  /** Per character the estimate costs at most one half: 1/2.4 + 1/12 in the densest model. */
  lemma PerCharacterCost(b: Breakdown, length: nat, model: LanguageModel)
    requires KnownModel(model)
    requires b.codeLikeChars + b.proseChars + b.markdownChars == length
    requires b.symbolChars + b.cyrillicChars <= length
    ensures 0.0 <= Weighted(b, model) <= length as real / 2.0
  {
    var l, s, c := length as real, b.symbolChars as real, b.cyrillicChars as real;
    assert s + c <= l;
    if model.charsPerToken == 2.4 {
      assert l / 2.4 + s / 12.0 + c / 12.0 <= l / 2.0;
    } else {
      assert l / 3.3 + s / 24.0 + c / 12.0 <= l / 2.0;
      assert l / 2.8 + s / 16.0 + c / 12.0 <= l / 2.0;
      assert l / 3.0 + s / 18.0 + c / 12.0 <= l / 2.0;
      assert l / 3.5 + s / 20.0 + c / 12.0 <= l / 2.0;
    }
  }

  lemma CeilOfHalf(x: real, length: nat, n: nat)
    requires 0.0 <= x <= length as real / 2.0 && length <= n
    ensures 0 <= Ceil(x) <= (n + 1) / 2
  {
    assert (-x) <= 0.0;
    var half := (n + 1) / 2;
    assert -(half as real) <= -x;
  }

  lemma BreakdownFacts(text: string)
    ensures var b := BreakdownOf(Lines(text));
      && b.codeLikeChars + b.proseChars + b.markdownChars == TotalLength(Lines(text)) <= |text|
      && b.symbolChars + b.cyrillicChars <= TotalLength(Lines(text))
  {
    ClassesPartitionLines(Lines(text));
    SymbolsAndCyrillicDisjoint(Lines(text));
    LinesNoLongerThanText(text);
  }

  lemma WeightedCeiling(b: Breakdown, length: nat, n: nat, model: LanguageModel)
    requires KnownModel(model)
    requires b.codeLikeChars + b.proseChars + b.markdownChars == length <= n
    requires b.symbolChars + b.cyrillicChars <= length
    ensures 0 <= Ceil(Weighted(b, model)) <= (n + 1) / 2
  {
    PerCharacterCost(b, length, model);
    CeilOfHalf(Weighted(b, model), length, n);
  }

  /** The weighted estimate of any text never exceeds half its characters, rounded up. */
  lemma WeightedBound(text: string, b: Breakdown, model: LanguageModel)
    requires b == BreakdownOf(Lines(text)) && KnownModel(model)
    ensures 0 <= Ceil(Weighted(b, model)) <= (|text| + 1) / 2
  {
    BreakdownFacts(text);
    var length := TotalLength(Lines(text));
    WeightedCeiling(b, length, |text|, model);
  }

  // ----- which language has which model

  /** The name reads as this word in any casing of its ASCII letters. */
  predicate Spells(name: string, word: string) {
    |name| == |word| && forall i :: 0 <= i < |name| ==> name[i] == word[i] || UpperOf(word[i]) == name[i]
  }

  function UpperOf(letter: char): char {
    if 'a' <= letter <= 'z' then CAPITALS[letter as int - 'a' as int] else letter
  }

  lemma SpelledExactly(name: string, word: string)
    requires forall i :: 0 <= i < |word| ==> 'a' <= word[i] <= 'z'
    ensures Lowercase(name) == word <==> Spells(name, word)
  {
    if Spells(name, word) {
      forall i | 0 <= i < |name|
        ensures LowerAscii(name[i]) == word[i]
      {
        CapitalLowers(word[i]);
      }
    }
    if Lowercase(name) == word {
      forall i | 0 <= i < |name|
        ensures name[i] == word[i] || UpperOf(word[i]) == name[i]
      {
        assert Lowercase(name)[i] == LowerAscii(name[i]);
        CapitalLowers(word[i]);
      }
    }
  }

  lemma CapitalLowers(letter: char)
    requires 'a' <= letter <= 'z'
    ensures LowerAscii(UpperOf(letter)) == letter && 'A' <= UpperOf(letter) <= 'Z'
    ensures forall c :: LowerAscii(c) == letter ==> c == letter || c == UpperOf(letter)
  {
    LettersInOrder();
  }

  /** The models by language, the last one for every name not listed. */
  lemma ModelsByLanguage(name: string)
    ensures Spells(name, "rust") ==> GetLanguageModel(name) == LanguageModel(2.4, 12.0)
    ensures Spells(name, "python") ==> GetLanguageModel(name) == LanguageModel(3.3, 24.0)
    ensures Spells(name, "javascript") || Spells(name, "typescript") || Spells(name, "js") || Spells(name, "ts") ==>
      GetLanguageModel(name) == LanguageModel(2.8, 16.0)
    ensures Spells(name, "go") ==> GetLanguageModel(name) == LanguageModel(3.0, 18.0)
    ensures GetLanguageModel(name) != LanguageModel(3.5, 20.0) ==>
      || Spells(name, "rust") || Spells(name, "python") || Spells(name, "go") || Spells(name, "javascript")
      || Spells(name, "typescript") || Spells(name, "js") || Spells(name, "ts")
  {
    SpelledExactly(name, "rust");
    SpelledExactly(name, "python");
    SpelledExactly(name, "javascript");
    SpelledExactly(name, "typescript");
    SpelledExactly(name, "js");
    SpelledExactly(name, "ts");
    SpelledExactly(name, "go");
  }
}
