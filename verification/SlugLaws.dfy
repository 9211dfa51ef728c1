/** What a slug is made of, law by law: together the four laws fix the slug of every value. */
module SlugLaws {
  import opened Alphabet
  import opened Slugs
  import opened Text

  /** `to` is the digit or small letter that `from` is, or the small form of its capital. */
  predicate Lowers(from: char, to: char) {
    || ('0' <= from <= '9' && to == from)
    || (exists k :: 0 <= k < 26 && LETTERS[k] == to && (from == LETTERS[k] || from == CAPITALS[k]))
  }

  predicate LowersAll(from: string, to: string) {
    |from| == |to| && forall i :: 0 <= i < |from| ==> Lowers(from[i], to[i])
  }

  /** Everything that is no ASCII letter and no ASCII digit. */
  ghost predicate IsSeparator(c: char) {
    forall to :: !Lowers(c, to)
  }

  ghost predicate AllSeparators(s: string) {
    forall i :: 0 <= i < |s| ==> IsSeparator(s[i])
  }

  lemma LowersExactly(from: char, to: char)
    ensures Lowers(from, to) ==> MapChar(from) == to && IsLowerAlnum(to)
    ensures IsLowerAlnum(MapChar(from)) ==> Lowers(from, MapChar(from))
  {
    LettersInOrder();
    if 'a' <= from <= 'z' {
      assert LETTERS[from as int - 'a' as int] == from;
    } else if 'A' <= from <= 'Z' {
      assert CAPITALS[from as int - 'A' as int] == from;
      assert LETTERS[from as int - 'A' as int] == MapChar(from);
    }
  }

  lemma SeparatorExactly(c: char)
    ensures IsSeparator(c) <==> MapChar(c) == DASH
  {
    LowersExactly(c, MapChar(c));
    forall to
      ensures Lowers(c, to) ==> MapChar(c) != DASH
    {
      LowersExactly(c, to);
    }
  }

  // ----- the words between dashes

  function Words(s: string): seq<string> {
    NonEmpty(SplitDash(s))
  }

  lemma IndexIs(s: string, i: nat)
    requires i <= |s| && DASH !in s[..i] && (i < |s| ==> s[i] == DASH)
    ensures IndexOf(s, DASH) == i
  {
    var j := IndexOf(s, DASH);
    assert forall k :: 0 <= k < i ==> s[k] == s[..i][k];
    assert forall k :: 0 <= k < j ==> s[k] == s[..j][k];
  }

  lemma WordsOfNone()
    ensures Words([]) == []
  {
    var none: string := [];
    assert SplitDash(none) == [none] && [none][1..] == [];
  }

  lemma WordsFrom(first: string, rest: string)
    requires DASH !in first
    ensures Words(first + [DASH] + rest) == (if first == [] then [] else [first]) + Words(rest)
  {
    var s := first + [DASH] + rest;
    assert s[..|first|] == first && s[|first| + 1..] == rest;
    IndexIs(s, |first|);
    assert SplitDash(s) == [first] + SplitDash(rest);
    assert ([first] + SplitDash(rest))[1..] == SplitDash(rest);
  }

  lemma WordsOfOne(s: string)
    requires DASH !in s
    ensures Words(s) == if s == [] then [] else [s]
  {
    assert s[..|s|] == s;
    IndexIs(s, |s|);
    var rest: seq<string> := [];
    assert [s][1..] == rest && NonEmpty(rest) == rest;
  }

  lemma {:induction false} WordsAppend(a: string, b: string)
    ensures Words(a + [DASH] + b) == Words(a) + Words(b)
    decreases |a|
  {
    var end := IndexOf(a, DASH);
    if end == |a| {
      assert a[..end] == a;
      WordsFrom(a, b);
      WordsOfOne(a);
    } else {
      var rest := a[end + 1..];
      Rebuild(a, end);
      WordsFrom(a[..end], rest);
      WordsFrom(a[..end], rest + [DASH] + b);
      assert a + [DASH] + b == a[..end] + [DASH] + (rest + [DASH] + b);
      WordsAppend(rest, b);
    }
  }

  lemma WordsBesideDash(s: string)
    ensures Words([DASH] + s) == Words(s) == Words(s + [DASH])
  {
    WordsOfNone();
    WordsAppend([], s);
    WordsAppend(s, []);
    assert [] + [DASH] + s == [DASH] + s && s + [DASH] + [] == s + [DASH];
  }

  lemma {:induction false} NoWordsExactly(s: string)
    ensures Words(s) == [] <==> forall i :: 0 <= i < |s| ==> s[i] == DASH
    decreases |s|
  {
    var end := IndexOf(s, DASH);
    if end == |s| {
      assert s[..end] == s;
      WordsOfOne(s);
      if s != [] {
        assert s[..end][0] != DASH;
      }
    } else {
      Rebuild(s, end);
      WordsFrom(s[..end], s[end + 1..]);
      NoWordsExactly(s[end + 1..]);
      if end > 0 {
        assert s[..end][0] != DASH;
      } else {
        assert forall i :: 0 < i < |s| ==> s[i] == s[end + 1..][i - 1];
      }
    }
  }

  lemma MapAppend(a: string, b: string)
    ensures MapChars(a + b) == MapChars(a) + MapChars(b)
  {
  }

  lemma SeparatorAddsNoWord(s: string, c: char)
    requires IsSeparator(c)
    ensures Words(MapChars([c] + s)) == Words(MapChars(s)) == Words(MapChars(s + [c]))
  {
    SeparatorExactly(c);
    assert MapChars([c]) == [DASH];
    MapAppend([c], s);
    MapAppend(s, [c]);
    WordsBesideDash(MapChars(s));
  }

  lemma {:induction false} SeparatorsAddNoWord(s: string, seps: string)
    requires AllSeparators(seps)
    ensures Words(MapChars(seps + s)) == Words(MapChars(s)) == Words(MapChars(s + seps))
    decreases |seps|
  {
    if seps == [] {
      assert seps + s == s && s + seps == s;
    } else {
      var first, rest := seps[0], seps[1..];
      assert AllSeparators(rest);
      SeparatorsAddNoWord(s, rest);
      SeparatorAddsNoWord(rest + s, first);
      assert seps + s == [first] + (rest + s);
      SeparatorsAddNoWord(s + [first], rest);
      SeparatorAddsNoWord(s, first);
      assert s + seps == (s + [first]) + rest;
    }
  }

  lemma WhitespaceSeparates(c: char)
    requires IsWhitespace(c)
    ensures AllSeparators([c])
  {
    SeparatorExactly(c);
  }

  lemma {:induction false} TrimEndKeepsWords(s: string)
    ensures Words(MapChars(TrimEnd(s))) == Words(MapChars(s))
  {
    if s != [] && IsWhitespace(s[|s| - 1]) {
      WhitespaceSeparates(s[|s| - 1]);
      SeparatorsAddNoWord(s[..|s| - 1], [s[|s| - 1]]);
      assert s == s[..|s| - 1] + [s[|s| - 1]];
      TrimEndKeepsWords(s[..|s| - 1]);
    }
  }

  lemma {:induction false} TrimStartKeepsWords(s: string)
    ensures Words(MapChars(TrimStart(s))) == Words(MapChars(s))
  {
    if s != [] && IsWhitespace(s[0]) {
      WhitespaceSeparates(s[0]);
      SeparatorsAddNoWord(s[1..], [s[0]]);
      assert s == [s[0]] + s[1..];
      TrimStartKeepsWords(s[1..]);
    }
  }

  lemma SlugOfWords(value: string)
    ensures var words := Words(MapChars(value));
            && AllWords(words)
            && Slugify(value) == (if words == [] then "provider" else JoinDash(words))
  {
    TrimStartKeepsWords(value);
    TrimEndKeepsWords(TrimStart(value));
    NonEmptyAreWords(MapChars(value));
    if Words(MapChars(value)) != [] {
      JoinedWordsAreSlug(Words(MapChars(value)));
    }
  }

  lemma {:induction false} JoinAppend(a: seq<string>, b: seq<string>)
    requires a != [] && b != []
    ensures JoinDash(a + b) == JoinDash(a) + [DASH] + JoinDash(b)
  {
    if |a| == 1 {
      assert (a + b)[1..] == b;
    } else {
      assert (a + b)[1..] == a[1..] + b;
      JoinAppend(a[1..], b);
    }
  }

  // ----- the laws

  /** A single word becomes its small form, character by character. */
  lemma SlugOfOneWord(word: string, slug: string)
    requires word != [] && LowersAll(word, slug)
    ensures Slugify(word) == slug
  {
    forall i | 0 <= i < |word|
      ensures MapChar(word[i]) == slug[i] && slug[i] != DASH
    {
      LowersExactly(word[i], slug[i]);
    }
    assert MapChars(word) == slug;
    WordsOfOne(slug);
    SlugOfWords(word);
  }

  /** Separators at either end leave no trace. */
  lemma SlugIgnoresOuterSeparators(value: string, seps: string)
    requires AllSeparators(seps)
    ensures Slugify(seps + value) == Slugify(value) == Slugify(value + seps)
  {
    SeparatorsAddNoWord(value, seps);
    SlugOfWords(value);
    SlugOfWords(seps + value);
    SlugOfWords(value + seps);
  }

  /** A run of separators between two values that both have a letter or digit becomes one dash. */
  lemma SlugOfTwo(a: string, seps: string, b: string)
    requires !AllSeparators(a) && !AllSeparators(b) && AllSeparators(seps) && seps != []
    ensures Slugify(a + seps + b) == Slugify(a) + "-" + Slugify(b)
  {
    var front := seps[..|seps| - 1];
    var last := seps[|seps| - 1];
    assert seps == front + [last] && a + seps + b == (a + front) + [last] + b;
    SeparatorExactly(last);
    MapAppend((a + front) + [last], b);
    MapAppend(a + front, [last]);
    assert MapChars([last]) == [DASH];
    WordsAppend(MapChars(a + front), MapChars(b));
    SeparatorsAddNoWord(a, front);
    LetterGivesWord(a);
    LetterGivesWord(b);
    JoinAppend(Words(MapChars(a)), Words(MapChars(b)));
    SlugOfWords(a + seps + b);
    SlugOfWords(a);
    SlugOfWords(b);
  }

  lemma LetterGivesWord(value: string)
    ensures Words(MapChars(value)) == [] <==> AllSeparators(value)
  {
    NoWordsExactly(MapChars(value));
    forall i | 0 <= i < |value|
      ensures MapChars(value)[i] == DASH <==> IsSeparator(value[i])
    {
      SeparatorExactly(value[i]);
    }
  }

  /** A value without letters and digits is called a provider. */
  lemma SlugOfNothing(value: string)
    requires AllSeparators(value)
    ensures Slugify(value) == "provider"
  {
    LetterGivesWord(value);
    SlugOfWords(value);
  }
}
