/** Greedy fuzzy matching of a query as a subsequence of a text. */
module Subsequence {
  import opened Wrappers

  /** `at` places every query character, in order, on an equal text character. */
  ghost predicate Embeds(text: string, query: string, at: seq<nat>) {
    && |at| == |query|
    && (forall i :: 0 <= i < |at| ==> at[i] < |text| && text[at[i]] == query[i])
    && (forall i, j :: 0 <= i < j < |at| ==> at[i] < at[j])
  }

  /** `at` is nowhere later than any other embedding of the same query prefix. */
  ghost predicate EarliestFor(text: string, query: string, n: nat, at: seq<nat>)
    requires n <= |query|
  {
    forall other :: Embeds(text, query[..n], other) ==>
      |at| == n && forall i :: 0 <= i < n ==> at[i] <= other[i]
  }

  function PositionFrom(text: string, c: char, cursor: nat): (i: nat)
    requires cursor <= |text|
    ensures cursor <= i <= |text|
    ensures i < |text| ==> text[i] == c
    ensures forall k :: cursor <= k < i ==> text[k] != c
    decreases |text| - cursor
  {
    if cursor == |text| || text[cursor] == c then cursor else PositionFrom(text, c, cursor + 1)
  }

  /** The greedy search. `at` is the embedding it builds; `None` means there is no
      embedding at all. The subtraction that computes the gap never underflows. */
  method SubsequenceGap(text: string, query: string) returns (gap: Option<nat>, ghost at: seq<nat>)
    ensures gap.None? <==> !exists other :: Embeds(text, query, other)
    ensures gap.Some? ==> Embeds(text, query, at)
    ensures gap.Some? ==> forall other :: Embeds(text, query, other) ==>
      forall i :: 0 <= i < |query| ==> at[i] <= other[i]
    ensures query == [] ==> gap == Some(1)
    ensures gap.Some? && query != [] ==>
      gap.value == (at[|query| - 1] - at[0] + 1) - |query| && |query| <= at[|query| - 1] - at[0] + 1
  {
    var cursor := 0;
    var first: Option<nat> := None;
    var last := 0;
    at := [];
    for i := 0 to |query|
      invariant Embeds(text, query[..i], at)
      invariant EarliestFor(text, query, i, at)
      invariant cursor == (if i == 0 then 0 else at[i - 1] + 1) <= |text|
      invariant i == 0 ==> first.None? && last == 0
      invariant i > 0 ==> first == Some(at[0]) && last == at[i - 1]
    {
      var absolute := PositionFrom(text, query[i], cursor);
      if absolute == |text| {
        EarliestStops(text, query, i, at);
        return None, at;
      }
      EarliestExtends(text, query, i, at, absolute);
      if first.None? {
        first := Some(absolute);
      }
      last := absolute;
      cursor := absolute + 1;
      at := at + [absolute];
    }
    assert query[..|query|] == query;
    StrictlyIncreasingSpan(text, query, at);
    var start := if first.Some? then first.value else last;
    gap := Some((if last >= start then last - start else 0) + 1 - |query|);
  }

  lemma {:induction false} StrictlyIncreasingSpan(text: string, query: string, at: seq<nat>)
    requires Embeds(text, query, at)
    ensures forall i :: 0 <= i < |at| ==> at[0] + i <= at[i]
  {
    for i := 0 to |at|
      invariant forall k :: 0 <= k < i ==> at[0] + k <= at[k]
    {
      if i > 0 {
        assert at[i - 1] < at[i];
      }
    }
  }

  lemma PrefixEmbeds(text: string, query: string, n: nat, other: seq<nat>)
    requires n <= |query| && Embeds(text, query, other)
    ensures Embeds(text, query[..n], other[..n])
  {
  }

  /** No embedding of a longer prefix puts its last character before the greedy one. */
  lemma NothingEarlier(text: string, query: string, i: nat, at: seq<nat>, absolute: nat, other: seq<nat>)
    requires i < |query| && Embeds(text, query[..i], at) && EarliestFor(text, query, i, at)
    requires (if i == 0 then 0 else at[i - 1] + 1) <= |text|
    requires absolute == PositionFrom(text, query[i], if i == 0 then 0 else at[i - 1] + 1)
    requires Embeds(text, query[..i + 1], other)
    ensures forall k :: 0 <= k < i ==> at[k] <= other[k]
    ensures absolute <= other[i] < |text|
  {
    PrefixEmbeds(text, query[..i + 1], i, other);
    assert query[..i + 1][..i] == query[..i];
    assert forall k :: 0 <= k < i ==> other[..i][k] == other[k];
    assert text[other[i]] == query[..i + 1][i] == query[i];
    if i > 0 {
      assert at[i - 1] <= other[i - 1] < other[i];
    }
  }

  lemma GreedyEmbeds(text: string, query: string, i: nat, at: seq<nat>, absolute: nat)
    requires i < |query| && Embeds(text, query[..i], at)
    requires i == 0 || at[i - 1] < absolute
    requires absolute < |text| && text[absolute] == query[i]
    ensures Embeds(text, query[..i + 1], at + [absolute])
  {
    var longer := query[..i + 1];
    forall k | 0 <= k < i
      ensures longer[k] == query[..i][k]
    {
    }
  }

  /** The first occurrence after the greedy prefix extends it. */
  lemma EarliestExtends(text: string, query: string, i: nat, at: seq<nat>, absolute: nat)
    requires i < |query| && Embeds(text, query[..i], at) && EarliestFor(text, query, i, at)
    requires (if i == 0 then 0 else at[i - 1] + 1) <= |text|
    requires absolute == PositionFrom(text, query[i], if i == 0 then 0 else at[i - 1] + 1) < |text|
    ensures Embeds(text, query[..i + 1], at + [absolute])
    ensures EarliestFor(text, query, i + 1, at + [absolute])
  {
    GreedyEmbeds(text, query, i, at, absolute);
    var longer := query[..i + 1];
    forall other | Embeds(text, longer, other)
      ensures forall k :: 0 <= k < i + 1 ==> (at + [absolute])[k] <= other[k]
    {
      NothingEarlier(text, query, i, at, absolute, other);
    }
  }

  /** When there is no occurrence after it, the whole query has no embedding. */
  lemma EarliestStops(text: string, query: string, i: nat, at: seq<nat>)
    requires i < |query| && Embeds(text, query[..i], at) && EarliestFor(text, query, i, at)
    requires (if i == 0 then 0 else at[i - 1] + 1) <= |text|
    requires PositionFrom(text, query[i], if i == 0 then 0 else at[i - 1] + 1) == |text|
    ensures !exists other :: Embeds(text, query, other)
  {
    forall other | Embeds(text, query, other)
      ensures false
    {
      PrefixEmbeds(text, query, i + 1, other);
      NothingEarlier(text, query, i, at, |text|, other[..i + 1]);
    }
  }

  /** The only non-empty query that matches with gap zero is one found contiguously. */
  lemma ZeroGapIsContiguous(text: string, query: string, at: seq<nat>)
    requires Embeds(text, query, at) && query != []
    ensures at[|at| - 1] - at[0] + 1 == |query| <==> query == text[at[0]..at[|at| - 1] + 1]
  {
    StrictlyIncreasingSpan(text, query, at);
    if at[|at| - 1] - at[0] + 1 == |query| {
      ContiguousEmbedding(text, query, at);
    }
  }

  lemma ContiguousEmbedding(text: string, query: string, at: seq<nat>)
    requires Embeds(text, query, at) && query != []
    requires at[|at| - 1] - at[0] + 1 == |query|
    ensures forall i :: 0 <= i < |at| ==> at[i] == at[0] + i
    ensures query == text[at[0]..at[|at| - 1] + 1]
  {
    StrictlyIncreasingSpan(text, query, at);
    var n := |at|;
    for i := n downto 0
      invariant forall k :: i <= k < n ==> at[k] == at[0] + k
    {
      assert i + 1 <= n - 1 ==> at[i] < at[i + 1];
    }
  }
}
