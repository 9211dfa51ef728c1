/** Normalising provider names to slugs, and the keychain account names made of them. */
module Slugs {
  import opened Text

  const DASH: char := '-'

  predicate IsLowerAlnum(c: char) {
    'a' <= c <= 'z' || '0' <= c <= '9'
  }

  function MapChar(c: char): char {
    if 'A' <= c <= 'Z' then c - 'A' + 'a' else if IsLowerAlnum(c) then c else DASH
  }

  function MapChars(s: string): string {
    seq(|s|, i requires 0 <= i < |s| => MapChar(s[i]))
  }

  /** The pieces between dashes, empty ones included. */
  function SplitDash(s: string): seq<string>
    decreases |s|
  {
    var end := IndexOf(s, DASH);
    if end == |s| then [s] else [s[..end]] + SplitDash(s[end + 1..])
  }

  function NonEmpty(parts: seq<string>): seq<string> {
    if parts == [] then []
    else (if parts[0] == [] then [] else [parts[0]]) + NonEmpty(parts[1..])
  }

  function JoinDash(parts: seq<string>): string {
    if parts == [] then []
    else if |parts| == 1 then parts[0]
    else parts[0] + [DASH] + JoinDash(parts[1..])
  }

  function Slugify(value: string): string {
    var collapsed := JoinDash(NonEmpty(SplitDash(MapChars(Trim(value)))));
    if collapsed == [] then "provider" else collapsed
  }

  /** Lower-case words of letters and digits, separated by single dashes. */
  predicate IsSlug(s: string) {
    && s != []
    && (forall i :: 0 <= i < |s| ==> IsLowerAlnum(s[i]) || s[i] == DASH)
    && s[0] != DASH && s[|s| - 1] != DASH
    && (forall i :: 0 <= i < |s| - 1 ==> s[i] != DASH || s[i + 1] != DASH)
  }

  predicate IsWord(s: string) {
    s != [] && forall i :: 0 <= i < |s| ==> IsLowerAlnum(s[i])
  }

  predicate AllWords(parts: seq<string>) {
    forall i :: 0 <= i < |parts| ==> IsWord(parts[i])
  }

  lemma {:induction false} NonEmptyAreWords(s: string)
    requires forall i :: 0 <= i < |s| ==> IsLowerAlnum(s[i]) || s[i] == DASH
    ensures AllWords(NonEmpty(SplitDash(s)))
    decreases |s|
  {
    var end := IndexOf(s, DASH);
    forall i | 0 <= i < end
      ensures IsLowerAlnum(s[i])
    {
      assert s[..end][i] != DASH;
    }
    if end == |s| {
      assert s[..end] == s;
      WordFirst(s, []);
      assert [s] + [] == [s];
    } else {
      NonEmptyAreWords(s[end + 1..]);
      WordFirst(s[..end], SplitDash(s[end + 1..]));
    }
  }

  lemma WordFirst(first: string, rest: seq<string>)
    requires forall i :: 0 <= i < |first| ==> IsLowerAlnum(first[i])
    requires AllWords(NonEmpty(rest))
    ensures AllWords(NonEmpty([first] + rest))
  {
    assert ([first] + rest)[1..] == rest;
  }

  lemma {:induction false} JoinedWordsAreSlug(parts: seq<string>)
    requires AllWords(parts) && parts != []
    ensures IsSlug(JoinDash(parts))
  {
    if |parts| > 1 {
      JoinedWordsAreSlug(parts[1..]);
      SlugPrefix(parts[0], JoinDash(parts[1..]));
    } else {
      assert IsWord(parts[0]);
    }
  }

  lemma SlugPrefix(word: string, rest: string)
    requires IsWord(word) && IsSlug(rest)
    ensures IsSlug(word + [DASH] + rest)
  {
    var s := word + [DASH] + rest;
    assert s[|s| - 1] == rest[|rest| - 1];
    forall i | 0 <= i < |s|
      ensures IsLowerAlnum(s[i]) || s[i] == DASH
      ensures i < |s| - 1 ==> s[i] != DASH || s[i + 1] != DASH
    {
      if i > |word| {
        assert s[i] == rest[i - |word| - 1];
        if i < |s| - 1 {
          assert s[i + 1] == rest[i - |word|];
        }
      } else if i == |word| && i < |s| - 1 {
        assert s[i + 1] == rest[0];
      }
    }
  }

  lemma JoinFirst(first: string, parts: seq<string>)
    requires parts != []
    ensures JoinDash([first] + parts) == first + [DASH] + JoinDash(parts)
  {
    assert ([first] + parts)[1..] == parts;
  }

  lemma Rebuild(s: string, end: nat)
    requires end < |s| && s[end] == DASH
    ensures s[..end] + [DASH] + s[end + 1..] == s
  {
  }

  lemma {:induction false} JoinSplit(s: string)
    ensures JoinDash(SplitDash(s)) == s
    decreases |s|
  {
    var end := IndexOf(s, DASH);
    if end < |s| {
      Rebuild(s, end);
      JoinSplit(s[end + 1..]);
      JoinFirst(s[..end], SplitDash(s[end + 1..]));
    }
  }

  lemma {:induction false} SlugPiecesNonEmpty(s: string)
    requires IsSlug(s)
    ensures NonEmpty(SplitDash(s)) == SplitDash(s)
    decreases |s|
  {
    var end := IndexOf(s, DASH);
    if end == |s| {
      assert [s][1..] == [] && NonEmpty([]) == [];
    } else {
      assert s[end] == DASH;
      assert 0 < end < |s| - 1;
      var rest := s[end + 1..];
      assert s[end + 1] != DASH;
      assert rest[0] == s[end + 1] && rest[|rest| - 1] == s[|s| - 1];
      forall i | 0 <= i < |rest| - 1
        ensures rest[i] != DASH || rest[i + 1] != DASH
      {
        assert rest[i] == s[end + 1 + i] && rest[i + 1] == s[end + 1 + i + 1];
      }
      SlugPiecesNonEmpty(rest);
      assert SplitDash(s)[1..] == SplitDash(rest) && SplitDash(s)[0] == s[..end];
    }
  }

  /** The result is always a slug, and slugs are exactly the fixed points. */
  lemma SlugifyNormalises(value: string)
    ensures IsSlug(Slugify(value))
    ensures Slugify(value) == value <==> IsSlug(value)
  {
    SlugifyIsSlug(value);
    if IsSlug(value) {
      assert Trim(value) == value by {
        assert !IsWhitespace(value[0]) && !IsWhitespace(value[|value| - 1]);
      }
      assert MapChars(value) == value;
      SlugPiecesNonEmpty(value);
      JoinSplit(value);
    }
  }

  lemma SlugifyIsSlug(value: string)
    ensures IsSlug(Slugify(value))
  {
    var parts := NonEmpty(SplitDash(MapChars(Trim(value))));
    NonEmptyAreWords(MapChars(Trim(value)));
    if parts != [] {
      JoinedWordsAreSlug(parts);
    }
  }

  function CredentialKey(id: string): string {
    "custom_provider_" + Slugify(id) + "_api_key"
  }

  /** Account names collide exactly when the slugs do. */
  lemma CredentialKeyInjective(a: string, b: string)
    ensures CredentialKey(a) == CredentialKey(b) <==> Slugify(a) == Slugify(b)
  {
    var prefix, suffix := "custom_provider_", "_api_key";
    var ka, kb := CredentialKey(a), CredentialKey(b);
    assert ka[|prefix|..|ka| - |suffix|] == Slugify(a);
    assert kb[|prefix|..|kb| - |suffix|] == Slugify(b);
  }
}
