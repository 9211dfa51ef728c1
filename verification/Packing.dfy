/** Deterministic token-budget packing: rank the candidates, take each one that
    still fits, and report the decisions in the caller's order. */
module Packing {
  import opened Wrappers
  import opened Machine
  import opened Text
  import opened Sorting

  datatype Trust = Authoritative | Reviewed | Observed | Heuristic | Legacy

  /** Scores are finite: `f32` values become exact reals, so NaN does not occur. */
  datatype Candidate = Candidate(
    id: string,
    locator: string,
    fingerprint: string,
    trust: Trust,
    candidateTokens: usize,
    required: bool,
    relevanceScore: Option<real>,
    freshnessScore: Option<real>)

  datatype ExclusionReason =
    | Budget | Security | Missing | Unsupported | Stale | LowRelevance | Duplicate | Policy

  datatype SelectionState = Included | Excluded

  datatype Selection = Selection(
    candidateId: string,
    state: SelectionState,
    includedTokens: usize,
    trimmed: bool,
    exclusionReason: Option<ExclusionReason>,
    order: Option<nat>)

  datatype PackingResult = PackingResult(
    tokenBudget: usize,
    includedTokens: usize,
    excludedTokens: usize,
    selections: seq<Selection>)

  ghost predicate DistinctIds(cs: seq<Candidate>) {
    forall i, j :: 0 <= i < j < |cs| ==> cs[i].id != cs[j].id
  }

  // ----- ranking

  function ScoreOrZero(score: Option<real>): real {
    match score
    case None => 0.0
    case Some(value) => value
  }

  function CompareScore(left: Option<real>, right: Option<real>): Ordering {
    CompareReal(ScoreOrZero(left), ScoreOrZero(right))
  }

  function TrustRank(trust: Trust): nat {
    match trust
    case Authoritative => 5
    case Reviewed => 4
    case Observed => 3
    case Heuristic => 2
    case Legacy => 1
  }

  function RequiredRank(c: Candidate): nat {
    if c.required then 1 else 0
  }

  function CompareCandidates(left: Candidate, right: Candidate): Ordering {
    CompareInt(RequiredRank(right), RequiredRank(left))
    .Then(CompareScore(right.relevanceScore, left.relevanceScore))
    .Then(CompareInt(TrustRank(right.trust), TrustRank(left.trust)))
    .Then(CompareScore(right.freshnessScore, left.freshnessScore))
    .Then(CompareInt(left.candidateTokens, right.candidateTokens))
    .Then(CompareString(left.id, right.id))
  }

  /** `a` is offered budget strictly before `b`. */
  predicate Ahead(a: Candidate, b: Candidate) {
    CompareCandidates(a, b) == Less
  }

  predicate NotBehind(a: Candidate, b: Candidate) {
    CompareCandidates(a, b) != Greater
  }

  lemma CompareReverses(a: Candidate, b: Candidate)
    ensures CompareCandidates(b, a) == CompareCandidates(a, b).Reverse()
  {
    CompareStringReverses(a.id, b.id);
  }

  lemma AheadTransitive(a: Candidate, b: Candidate, c: Candidate)
    requires Ahead(a, b) && Ahead(b, c)
    ensures Ahead(a, c)
  {
    CompareStringEqual(a.id, b.id);
    CompareStringEqual(b.id, c.id);
    if CompareString(a.id, b.id) == Less && CompareString(b.id, c.id) == Less {
      CompareStringTransitive(a.id, b.id, c.id);
    }
  }

  lemma EqualRankEqualId(a: Candidate, b: Candidate)
    requires CompareCandidates(a, b) == Equal
    ensures a.id == b.id
  {
    CompareStringEqual(a.id, b.id);
  }

  /** On candidates with distinct ids the ranking is a strict total order. */
  lemma RankingIsStrictTotalOrder(a: Candidate, b: Candidate, c: Candidate)
    ensures !Ahead(a, a)
    ensures !(Ahead(a, b) && Ahead(b, a))
    ensures a.id != b.id ==> Ahead(a, b) || Ahead(b, a)
    ensures Ahead(a, b) && Ahead(b, c) ==> Ahead(a, c)
  {
    CompareReverses(a, a);
    CompareReverses(a, b);
    CompareStringEqual(a.id, a.id);
    if CompareCandidates(a, b) == Equal {
      EqualRankEqualId(a, b);
    }
    if Ahead(a, b) && Ahead(b, c) {
      AheadTransitive(a, b, c);
    }
  }

  lemma EqualRankSubstitutes(a: Candidate, b: Candidate, c: Candidate)
    requires CompareCandidates(a, b) == Equal
    ensures CompareCandidates(a, c) == CompareCandidates(b, c)
    ensures CompareCandidates(c, a) == CompareCandidates(c, b)
  {
    CompareStringEqual(a.id, b.id);
  }

  lemma RankingSorts()
    ensures Total(NotBehind) && Transitive(NotBehind)
  {
    forall a, b
      ensures NotBehind(a, b) || NotBehind(b, a)
    {
      CompareReverses(a, b);
    }
    forall a, b, c | NotBehind(a, b) && NotBehind(b, c)
      ensures NotBehind(a, c)
    {
      if CompareCandidates(a, b) == Equal {
        EqualRankSubstitutes(a, b, c);
      } else if CompareCandidates(b, c) == Equal {
        EqualRankSubstitutes(b, c, a);
      } else {
        AheadTransitive(a, b, c);
      }
    }
  }

  function Ranked(cs: seq<Candidate>): seq<Candidate> {
    SortBy(NotBehind, cs)
  }

  // ----- token totals

  function TokensWhere(cs: seq<Candidate>, p: Candidate -> bool): nat {
    if cs == [] then 0
    else (if p(cs[0]) then cs[0].candidateTokens else 0) + TokensWhere(cs[1..], p)
  }

  function Tokens(cs: seq<Candidate>): nat {
    TokensWhere(cs, c => true)
  }

  lemma {:induction false} TokensWhereConcat(a: seq<Candidate>, b: seq<Candidate>, p: Candidate -> bool)
    ensures TokensWhere(a + b, p) == TokensWhere(a, p) + TokensWhere(b, p)
  {
    if a == [] {
      assert a + b == b;
    } else {
      assert (a + b)[1..] == a[1..] + b;
      TokensWhereConcat(a[1..], b, p);
    }
  }

  lemma {:induction false} TokensWhereLe(cs: seq<Candidate>, p: Candidate -> bool, q: Candidate -> bool)
    requires forall c :: c in cs && p(c) ==> q(c)
    ensures TokensWhere(cs, p) <= TokensWhere(cs, q)
  {
    if cs != [] {
      TokensWhereLe(cs[1..], p, q);
    }
  }

  lemma TokensWhereSame(cs: seq<Candidate>, p: Candidate -> bool, q: Candidate -> bool)
    requires forall c :: c in cs ==> p(c) == q(c)
    ensures TokensWhere(cs, p) == TokensWhere(cs, q)
  {
    TokensWhereLe(cs, p, q);
    TokensWhereLe(cs, q, p);
  }

  lemma TokensWhereDropAt(cs: seq<Candidate>, i: nat, p: Candidate -> bool)
    requires i < |cs|
    ensures TokensWhere(cs, p) ==
      (if p(cs[i]) then cs[i].candidateTokens else 0) + TokensWhere(cs[..i] + cs[i + 1..], p)
  {
    assert cs == cs[..i] + cs[i..] && cs[i..][1..] == cs[i + 1..];
    TokensWhereConcat(cs[..i], cs[i..], p);
    TokensWhereConcat(cs[..i], cs[i + 1..], p);
  }

  lemma {:induction false} TokensWherePermutes(a: seq<Candidate>, b: seq<Candidate>, p: Candidate -> bool)
    requires multiset(a) == multiset(b)
    ensures TokensWhere(a, p) == TokensWhere(b, p)
    decreases |a|
  {
    SameSize(a, b);
    if a != [] {
      InMultiset(a[0], b);
      assert a[0] in multiset(a);
      var i :| 0 <= i < |b| && b[i] == a[0];
      DropFirst(a);
      DropAt(b, i);
      TokensWhereDropAt(b, i, p);
      TokensWherePermutes(a[1..], b[..i] + b[i + 1..], p);
    }
  }

  /** A member that `q` counts and `p` does not leaves room for its own cost. */
  lemma {:induction false} TokensWhereRoom(cs: seq<Candidate>, p: Candidate -> bool, q: Candidate -> bool, c: Candidate)
    requires forall d :: d in cs && p(d) ==> q(d)
    requires c in cs && q(c) && !p(c)
    ensures TokensWhere(cs, p) + c.candidateTokens <= TokensWhere(cs, q)
  {
    if c == cs[0] {
      TokensWhereLe(cs[1..], p, q);
    } else {
      TokensWhereRoom(cs[1..], p, q, c);
    }
  }

  // ----- the greedy pass

  /** The candidates taken, in rank order. */
  function Kept(ranked: seq<Candidate>, remaining: nat): (kept: seq<Candidate>)
    ensures Tokens(kept) <= remaining
  {
    if ranked == [] then []
    else if ranked[0].candidateTokens <= remaining then
      var rest := Kept(ranked[1..], remaining - ranked[0].candidateTokens);
      var kept := [ranked[0]] + rest;
      assert kept[1..] == rest;
      kept
    else Kept(ranked[1..], remaining)
  }

  /** The candidates left out, in rank order. */
  function Dropped(ranked: seq<Candidate>, remaining: nat): seq<Candidate> {
    if ranked == [] then []
    else if ranked[0].candidateTokens <= remaining then
      Dropped(ranked[1..], remaining - ranked[0].candidateTokens)
    else [ranked[0]] + Dropped(ranked[1..], remaining)
  }

  function Include(c: Candidate): Selection {
    Selection(c.id, Included, c.candidateTokens, false, None, None)
  }

  function Exclude(c: Candidate): Selection {
    Selection(c.id, Excluded, 0, false, Some(Budget), None)
  }

  function Greedy(ranked: seq<Candidate>, remaining: nat): seq<Selection> {
    if ranked == [] then []
    else if ranked[0].candidateTokens <= remaining then
      [Include(ranked[0])] + Greedy(ranked[1..], remaining - ranked[0].candidateTokens)
    else [Exclude(ranked[0])] + Greedy(ranked[1..], remaining)
  }

  function Position(cs: seq<Candidate>, id: string): (i: nat)
    ensures i <= |cs|
    ensures i < |cs| ==> cs[i].id == id
    ensures forall k :: 0 <= k < i ==> cs[k].id != id
  {
    if cs == [] || cs[0].id == id then 0 else 1 + Position(cs[1..], id)
  }

  function ByPosition(cs: seq<Candidate>): (Selection, Selection) -> bool {
    (a: Selection, b: Selection) => Position(cs, a.candidateId) <= Position(cs, b.candidateId)
  }

  function NumberFrom(sels: seq<Selection>, next: nat): seq<Selection> {
    if sels == [] then []
    else if sels[0].state == Included then
      [sels[0].(order := Some(next))] + NumberFrom(sels[1..], next + 1)
    else [sels[0]] + NumberFrom(sels[1..], next)
  }

  function Pack(candidates: seq<Candidate>, budget: usize): PackingResult {
    var ranked := Ranked(candidates);
    PackingResult(
      budget,
      Tokens(Kept(ranked, budget)),
      Min(Tokens(Dropped(ranked, budget)), USIZE_MAX),
      NumberFrom(SortBy(ByPosition(candidates), Greedy(ranked, budget)), 0))
  }

  lemma TokensCons(c: Candidate, cs: seq<Candidate>)
    ensures Tokens([c] + cs) == c.candidateTokens + Tokens(cs)
  {
    assert ([c] + cs)[1..] == cs;
  }

  /** One step of the greedy pass, seen from the front of the remaining candidates. */
  lemma GreedyStep(ranked: seq<Candidate>, i: nat, remaining: nat)
    requires i < |ranked|
    ensures ranked[i].candidateTokens <= remaining ==>
      var left := remaining - ranked[i].candidateTokens;
      && Tokens(Kept(ranked[i..], remaining)) == ranked[i].candidateTokens + Tokens(Kept(ranked[i + 1..], left))
      && Dropped(ranked[i..], remaining) == Dropped(ranked[i + 1..], left)
      && Greedy(ranked[i..], remaining) == [Include(ranked[i])] + Greedy(ranked[i + 1..], left)
    ensures ranked[i].candidateTokens > remaining ==>
      && Kept(ranked[i..], remaining) == Kept(ranked[i + 1..], remaining)
      && Tokens(Dropped(ranked[i..], remaining)) ==
         ranked[i].candidateTokens + Tokens(Dropped(ranked[i + 1..], remaining))
      && Greedy(ranked[i..], remaining) == [Exclude(ranked[i])] + Greedy(ranked[i + 1..], remaining)
  {
    assert ranked[i..][0] == ranked[i] && ranked[i..][1..] == ranked[i + 1..];
    if ranked[i].candidateTokens <= remaining {
      TokensCons(ranked[i], Kept(ranked[i + 1..], remaining - ranked[i].candidateTokens));
    } else {
      TokensCons(ranked[i], Dropped(ranked[i + 1..], remaining));
    }
  }

  /** The selection with its order, when it is included. */
  function WithOrder(s: Selection, order: nat): Selection {
    if s.state == Included then s.(order := Some(order)) else s
  }

  lemma NumberNext(done: seq<Selection>, sorted: seq<Selection>, i: nat, next: nat)
    requires i < |sorted|
    ensures done + NumberFrom(sorted[i..], next) ==
      (done + [WithOrder(sorted[i], next)])
      + NumberFrom(sorted[i + 1..], if sorted[i].state == Included then next + 1 else next)
  {
    assert sorted[i..][0] == sorted[i] && sorted[i..][1..] == sorted[i + 1..];
  }

  method AssignRenderOrder(sorted: seq<Selection>) returns (selections: seq<Selection>)
    ensures selections == NumberFrom(sorted, 0)
  {
    selections := sorted;
    var renderOrder := 0;
    for i := 0 to |selections|
      invariant |selections| == |sorted| && selections[i..] == sorted[i..]
      invariant selections[..i] + NumberFrom(sorted[i..], renderOrder) == NumberFrom(sorted, 0)
    {
      NumberNext(selections[..i], sorted, i, renderOrder);
      ghost var done := selections[..i] + [WithOrder(sorted[i], renderOrder)];
      assert selections[i] == selections[i..][0];
      if selections[i].state == Included {
        selections := selections[i := selections[i].(order := Some(renderOrder))];
        renderOrder := renderOrder + 1;
      }
      assert selections[..i + 1] == done;
    }
  }

  /** What the greedy loop has done after `i` candidates, against the whole pass. */
  ghost predicate Progress(ranked: seq<Candidate>, budget: nat, i: nat, remaining: nat, dropped: nat,
                           selections: seq<Selection>)
  {
    && i <= |ranked|
    && remaining <= budget
    && budget - remaining + Tokens(Kept(ranked[i..], remaining)) == Tokens(Kept(ranked, budget))
    && dropped + Tokens(Dropped(ranked[i..], remaining)) == Tokens(Dropped(ranked, budget))
    && selections + Greedy(ranked[i..], remaining) == Greedy(ranked, budget)
  }

  lemma ProgressStep(ranked: seq<Candidate>, budget: nat, i: nat, remaining: nat, dropped: nat,
                     selections: seq<Selection>)
    requires i < |ranked| && Progress(ranked, budget, i, remaining, dropped, selections)
    ensures var c := ranked[i];
      if c.candidateTokens <= remaining then
        Progress(ranked, budget, i + 1, remaining - c.candidateTokens, dropped, selections + [Include(c)])
      else
        Progress(ranked, budget, i + 1, remaining, dropped + c.candidateTokens, selections + [Exclude(c)])
  {
    GreedyStep(ranked, i, remaining);
    var c := ranked[i];
    if c.candidateTokens <= remaining {
      var tail := Greedy(ranked[i + 1..], remaining - c.candidateTokens);
      assert selections + ([Include(c)] + tail) == selections + [Include(c)] + tail;
    } else {
      var tail := Greedy(ranked[i + 1..], remaining);
      assert selections + ([Exclude(c)] + tail) == selections + [Exclude(c)] + tail;
    }
  }

  lemma ProgressEnds(ranked: seq<Candidate>, budget: nat)
    ensures Progress(ranked, budget, 0, budget, 0, [])
    ensures forall remaining, dropped, selections ::
      Progress(ranked, budget, |ranked|, remaining, dropped, selections) ==>
      && budget - remaining == Tokens(Kept(ranked, budget))
      && dropped == Tokens(Dropped(ranked, budget))
      && selections == Greedy(ranked, budget)
  {
    assert ranked[0..] == ranked && ranked[|ranked|..] == [];
  }

  method PackContextCandidates(candidates: seq<Candidate>, tokenBudget: usize) returns (result: PackingResult)
    ensures result == Pack(candidates, tokenBudget)
  {
    var ranked := Ranked(candidates);
    var remaining: usize := tokenBudget;
    var includedTokens: usize := 0;
    var excludedTokens: usize := 0;
    var selections: seq<Selection> := [];
    ghost var dropped: nat := 0;
    ProgressEnds(ranked, tokenBudget);
    for i := 0 to |ranked|
      invariant includedTokens + remaining == tokenBudget
      invariant excludedTokens == Min(dropped, USIZE_MAX)
      invariant Progress(ranked, tokenBudget, i, remaining, dropped, selections)
    {
      var candidate := ranked[i];
      ProgressStep(ranked, tokenBudget, i, remaining, dropped, selections);
      if candidate.candidateTokens <= remaining {
        remaining := SatSub(remaining, candidate.candidateTokens);
        includedTokens := SatAdd(includedTokens, candidate.candidateTokens);
        selections := selections + [Include(candidate)];
      } else {
        excludedTokens := SatAdd(excludedTokens, candidate.candidateTokens);
        dropped := dropped + candidate.candidateTokens;
        selections := selections + [Exclude(candidate)];
      }
    }
    selections := SortBy(ByPosition(candidates), selections);
    selections := AssignRenderOrder(selections);
    result := PackingResult(tokenBudget, includedTokens, excludedTokens, selections);
  }
}
