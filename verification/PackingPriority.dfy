/** The packer's priorities, key by key on the candidates' own fields. */
module PackingPriority {
  import opened Wrappers
  import opened Machine
  import opened Text
  import opened Packing
  import opened PackingProperties

  /** A missing score counts as zero. */
  function Score(score: Option<real>): real {
    if score.Some? then score.value else 0.0
  }

  /** Authoritative over reviewed over observed over heuristic over legacy. */
  predicate MoreTrusted(a: Trust, b: Trust) {
    match a
    case Authoritative => b != Authoritative
    case Reviewed => b == Observed || b == Heuristic || b == Legacy
    case Observed => b == Heuristic || b == Legacy
    case Heuristic => b == Legacy
    case Legacy => false
  }

  /** The ids agree up to some place, where `a` ends or has the smaller character. */
  predicate SmallerId(a: string, b: string) {
    exists k :: 0 <= k <= |a| && k < |b| && a[..k] == b[..k] && (k == |a| || a[k] < b[k])
  }

  /** The first key on which two candidates differ decides: required, then more relevant, then
      more trusted, then fresher, then cheaper, then smaller by id. */
  predicate ComesFirst(a: Candidate, b: Candidate) {
    if a.required != b.required then a.required
    else if Score(a.relevanceScore) != Score(b.relevanceScore) then Score(a.relevanceScore) > Score(b.relevanceScore)
    else if a.trust != b.trust then MoreTrusted(a.trust, b.trust)
    else if Score(a.freshnessScore) != Score(b.freshnessScore) then Score(a.freshnessScore) > Score(b.freshnessScore)
    else if a.candidateTokens != b.candidateTokens then a.candidateTokens < b.candidateTokens
    else SmallerId(a.id, b.id)
  }

  lemma {:induction false} SmallerIsLess(a: string, b: string)
    ensures CompareString(a, b) == Less <==> SmallerId(a, b)
  {
    if a == [] || b == [] {
      if b != [] {
        assert a[..0] == b[..0];
      }
    } else if a[0] == b[0] {
      SmallerIsLess(a[1..], b[1..]);
      SmallerTail(a, b);
    } else if a[0] < b[0] {
      assert a[..0] == b[..0];
    } else if SmallerId(a, b) {
      var k :| 0 <= k <= |a| && k < |b| && a[..k] == b[..k] && (k == |a| || a[k] < b[k]);
      if k > 0 {
        SameHead(a, b, k);
      }
    }
  }

  lemma SameHead(a: string, b: string, k: nat)
    requires 0 < k <= |a| && k <= |b| && a[..k] == b[..k]
    ensures a[0] == b[0]
  {
    assert a[..k][0] == a[0] && b[..k][0] == b[0];
  }

  lemma SmallerTail(a: string, b: string)
    requires a != [] && b != [] && a[0] == b[0]
    ensures SmallerId(a, b) <==> SmallerId(a[1..], b[1..])
  {
    if SmallerId(a, b) {
      var k :| 0 <= k <= |a| && k < |b| && a[..k] == b[..k] && (k == |a| || a[k] < b[k]);
      assert k > 0;
      assert a[1..][..k - 1] == a[..k][1..] && b[1..][..k - 1] == b[..k][1..];
    }
    if SmallerId(a[1..], b[1..]) {
      var k :| 0 <= k <= |a[1..]| && k < |b[1..]| && a[1..][..k] == b[1..][..k]
        && (k == |a[1..]| || a[1..][k] < b[1..][k]);
      assert a[..k + 1] == [a[0]] + a[1..][..k] && b[..k + 1] == [b[0]] + b[1..][..k];
    }
  }

  /** The ranking is that order. */
  lemma RankingIsByFields(a: Candidate, b: Candidate)
    ensures Ahead(a, b) <==> ComesFirst(a, b)
  {
    SmallerIsLess(a.id, b.id);
  }

  lemma TakenAheadGrows(cs: seq<Candidate>, taken: set<Candidate>, a: Candidate, b: Candidate)
    requires Ahead(a, b)
    ensures TakenAhead(cs, taken, a) <= TakenAhead(cs, taken, b)
  {
    forall d | d in cs && d in taken && Ahead(d, a)
      ensures Ahead(d, b)
    {
      AheadTransitive(d, a, b);
    }
    TokensWhereLe(cs, (d: Candidate) => d in taken && Ahead(d, a), (d: Candidate) => d in taken && Ahead(d, b));
  }

  /** Of two candidates, one that comes first and costs no more is never left out while the
      other is taken. */
  lemma PriorityDecides(cs: seq<Candidate>, budget: usize, i: nat, j: nat)
    requires DistinctIds(cs) && i < |cs| && j < |cs|
    requires ComesFirst(cs[i], cs[j]) && cs[i].candidateTokens <= cs[j].candidateTokens
    ensures |Pack(cs, budget).selections| == |cs|
    ensures Pack(cs, budget).selections[j].state == Included ==> Pack(cs, budget).selections[i].state == Included
  {
    RankingIsByFields(cs[i], cs[j]);
    SelectionsFollowCaller(cs, budget);
    GreedyCharacterisation(cs, budget, cs[i]);
    GreedyCharacterisation(cs, budget, cs[j]);
    TakenAheadGrows(cs, ChosenSet(cs, budget), cs[i], cs[j]);
  }

  /** When only one of two equally costly candidates fits, it is the one that comes first. */
  lemma FirstOfTwo(a: Candidate, b: Candidate, budget: usize)
    requires a.id != b.id && ComesFirst(a, b)
    requires a.candidateTokens == b.candidateTokens <= budget < a.candidateTokens + b.candidateTokens
    ensures var first := Pack([a, b], budget).selections;
      |first| == 2 && first[0].state == Included && first[1].state == Excluded
    ensures var second := Pack([b, a], budget).selections;
      |second| == 2 && second[0].state == Excluded && second[1].state == Included
  {
    TwoDecided(a, b, budget, [a, b], 0, 1);
    TwoDecided(a, b, budget, [b, a], 1, 0);
  }

  lemma TwoDecided(a: Candidate, b: Candidate, budget: usize, cs: seq<Candidate>, i: nat, j: nat)
    requires a.id != b.id && ComesFirst(a, b)
    requires a.candidateTokens == b.candidateTokens <= budget < a.candidateTokens + b.candidateTokens
    requires |cs| == 2 && i < 2 && j < 2 && cs[i] == a && cs[j] == b
    ensures |Pack(cs, budget).selections| == 2
    ensures Pack(cs, budget).selections[i].state == Included && Pack(cs, budget).selections[j].state == Excluded
  {
    SelectionsFollowCaller(cs, budget);
    RankingIsByFields(a, b);
    RankingIsStrictTotalOrder(a, b, a);
    RankingIsStrictTotalOrder(b, a, b);
    GreedyCharacterisation(cs, budget, a);
    GreedyCharacterisation(cs, budget, b);
    var taken := ChosenSet(cs, budget);
    TokensOfTwo(cs, (d: Candidate) => d in taken && Ahead(d, a));
    TokensOfTwo(cs, (d: Candidate) => d in taken && Ahead(d, b));
  }

  lemma TokensOfTwo(cs: seq<Candidate>, p: Candidate -> bool)
    requires |cs| == 2
    ensures TokensWhere(cs, p) ==
      (if p(cs[0]) then cs[0].candidateTokens else 0) + (if p(cs[1]) then cs[1].candidateTokens else 0)
  {
    TokensWhereConcat([cs[0]], [cs[1]], p);
    assert cs == [cs[0]] + [cs[1]] && [cs[0]][1..] == [] && [cs[1]][1..] == [];
  }
}
