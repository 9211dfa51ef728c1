/** What the packer promises: caller order, order independence, conservation, and
    a complete characterisation of which candidates it takes. */
module PackingProperties {
  import opened Wrappers
  import opened Machine
  import opened Sorting
  import opened Packing

  /** The candidates the packer includes, in rank order. */
  function Chosen(cs: seq<Candidate>, budget: nat): seq<Candidate> {
    Kept(Ranked(cs), budget)
  }

  lemma RankedFacts(cs: seq<Candidate>)
    ensures multiset(Ranked(cs)) == multiset(cs) && |Ranked(cs)| == |cs|
    ensures forall c :: c in Ranked(cs) <==> c in cs
    ensures SortedBy(NotBehind, Ranked(cs))
    ensures DistinctIds(cs) ==> DistinctIds(Ranked(cs))
  {
    var ranked := Ranked(cs);
    RankingSorts();
    SortIsPermutation(NotBehind, cs);
    SortIsSorted(NotBehind, cs);
    SameSize(ranked, cs);
    forall c
      ensures c in ranked <==> c in cs
    {
      InMultiset(c, ranked);
      InMultiset(c, cs);
    }
    if DistinctIds(cs) {
      DistinctPermutes(cs, ranked);
    }
  }

  lemma DistinctMultiplicity(cs: seq<Candidate>, c: Candidate)
    requires DistinctIds(cs)
    ensures multiset(cs)[c] <= 1
  {
    if c in cs {
      var i :| 0 <= i < |cs| && cs[i] == c;
      DropAt(cs, i);
      InMultiset(c, cs[..i] + cs[i + 1..]);
    }
  }

  lemma DistinctPermutes(a: seq<Candidate>, b: seq<Candidate>)
    requires DistinctIds(a) && multiset(a) == multiset(b)
    ensures DistinctIds(b)
  {
    forall i, j | 0 <= i < j < |b|
      ensures b[i].id != b[j].id
    {
      InMultiset(b[i], a);
      InMultiset(b[j], a);
      assert b[i] in multiset(b) && b[j] in multiset(b);
      if b[i] == b[j] {
        DropAt(b, j);
        assert (b[..j] + b[j + 1..])[i] == b[i];
        InMultiset(b[i], b[..j] + b[j + 1..]);
        DistinctMultiplicity(a, b[i]);
        assert false;
      }
    }
  }

  // ----- the greedy pass on distinct candidates

  lemma {:induction false} KeptIsSubset(ranked: seq<Candidate>, remaining: nat)
    ensures forall c :: c in Kept(ranked, remaining) ==> c in ranked
  {
    if ranked != [] {
      assert forall c :: c in ranked[1..] ==> c in ranked;
      if ranked[0].candidateTokens <= remaining {
        KeptIsSubset(ranked[1..], remaining - ranked[0].candidateTokens);
      } else {
        KeptIsSubset(ranked[1..], remaining);
      }
    }
  }

  lemma {:induction false} KeptSplits(ranked: seq<Candidate>, remaining: nat, k: nat)
    requires k <= |ranked|
    ensures Kept(ranked, remaining) ==
      Kept(ranked[..k], remaining) + Kept(ranked[k..], remaining - Tokens(Kept(ranked[..k], remaining)))
  {
    if k == 0 {
      assert ranked[0..] == ranked && ranked[..0] == [];
    } else {
      assert ranked[..k][0] == ranked[0] && ranked[..k][1..] == ranked[1..][..k - 1];
      assert ranked[1..][k - 1..] == ranked[k..];
      if ranked[0].candidateTokens <= remaining {
        var left := remaining - ranked[0].candidateTokens;
        KeptSplits(ranked[1..], left, k - 1);
        TokensCons(ranked[0], Kept(ranked[1..][..k - 1], left));
      } else {
        KeptSplits(ranked[1..], remaining, k - 1);
      }
    }
  }

  /** Being kept is decided at a candidate's own rank, from the ranks before it. */
  lemma KeptAtRank(ranked: seq<Candidate>, remaining: nat, k: nat)
    requires DistinctIds(ranked) && k < |ranked|
    ensures ranked[k] in Kept(ranked, remaining) <==>
      ranked[k].candidateTokens + Tokens(Kept(ranked[..k], remaining)) <= remaining
    ensures forall j :: 0 <= j < k ==>
      (ranked[j] in Kept(ranked, remaining) <==> ranked[j] in Kept(ranked[..k], remaining))
  {
    KeptSplits(ranked, remaining, k);
    var left := remaining - Tokens(Kept(ranked[..k], remaining));
    assert ranked[k..][0] == ranked[k] && ranked[k..][1..] == ranked[k + 1..];
    KeptIsSubset(ranked[..k], remaining);
    KeptIsSubset(ranked[k..], left);
    KeptIsSubset(ranked[k + 1..], left);
    assert ranked[k] !in ranked[..k] && ranked[k] !in ranked[k + 1..];
    forall j | 0 <= j < k
      ensures ranked[j] !in ranked[k..]
    {
    }
  }

  lemma {:induction false} KeptTokens(ranked: seq<Candidate>, remaining: nat, inKept: Candidate -> bool)
    requires DistinctIds(ranked)
    requires forall c :: c in ranked ==> (inKept(c) <==> c in Kept(ranked, remaining))
    ensures TokensWhere(ranked, inKept) == Tokens(Kept(ranked, remaining))
    decreases |ranked|
  {
    if ranked != [] {
      var c, rest := ranked[0], ranked[1..];
      assert c !in rest && ranked == [c] + rest;
      if c.candidateTokens <= remaining {
        TokensCons(c, Kept(rest, remaining - c.candidateTokens));
        KeptTokens(rest, remaining - c.candidateTokens, inKept);
      } else {
        KeptIsSubset(rest, remaining);
        KeptTokens(rest, remaining, inKept);
      }
    }
  }

  lemma AheadIsPrefix(ranked: seq<Candidate>, k: nat)
    requires SortedBy(NotBehind, ranked) && DistinctIds(ranked) && k < |ranked|
    ensures forall j :: 0 <= j < |ranked| ==> (Ahead(ranked[j], ranked[k]) <==> j < k)
  {
    forall j | 0 <= j < |ranked|
      ensures Ahead(ranked[j], ranked[k]) <==> j < k
    {
      RankingIsStrictTotalOrder(ranked[j], ranked[k], ranked[j]);
      CompareReverses(ranked[j], ranked[k]);
      if j < k {
        assert NotBehind(ranked[j], ranked[k]);
      } else if k < j {
        assert NotBehind(ranked[k], ranked[j]);
      }
    }
  }

  /** Tokens of the members of `taken` that are offered budget before `c`. */
  function TakenAhead(cs: seq<Candidate>, taken: set<Candidate>, c: Candidate): nat {
    TokensWhere(cs, (d: Candidate) => d in taken && Ahead(d, c))
  }

  function ChosenSet(cs: seq<Candidate>, budget: nat): set<Candidate> {
    set c | c in Chosen(cs, budget)
  }

  /** The rank-prefix total equals the total over the members ahead of that rank. */
  lemma TakenAheadAtRank(ranked: seq<Candidate>, taken: set<Candidate>, k: nat)
    requires SortedBy(NotBehind, ranked) && DistinctIds(ranked) && k < |ranked|
    ensures TakenAhead(ranked, taken, ranked[k]) == TokensWhere(ranked[..k], (d: Candidate) => d in taken)
  {
    var p := (d: Candidate) => d in taken && Ahead(d, ranked[k]);
    AheadByRank(ranked, k);
    assert ranked == ranked[..k] + ranked[k..];
    TokensWhereConcat(ranked[..k], ranked[k..], p);
    TokensWhereSame(ranked[..k], p, (d: Candidate) => d in taken);
    TokensWhereSame(ranked[k..], p, d => false);
    NothingCounted(ranked[k..]);
  }

  lemma AheadByRank(ranked: seq<Candidate>, k: nat)
    requires SortedBy(NotBehind, ranked) && DistinctIds(ranked) && k < |ranked|
    ensures forall d :: d in ranked[..k] ==> Ahead(d, ranked[k])
    ensures forall d :: d in ranked[k..] ==> !Ahead(d, ranked[k])
  {
    AheadIsPrefix(ranked, k);
    forall d | d in ranked[k..]
      ensures !Ahead(d, ranked[k])
    {
      var j :| k <= j < |ranked| && ranked[j] == d;
    }
  }

  lemma {:induction false} NothingCounted(cs: seq<Candidate>)
    ensures TokensWhere(cs, d => false) == 0
  {
    if cs != [] {
      NothingCounted(cs[1..]);
    }
  }

  lemma CharacterisedAtRank(ranked: seq<Candidate>, budget: nat, k: nat)
    requires SortedBy(NotBehind, ranked) && DistinctIds(ranked) && k < |ranked|
    ensures ranked[k] in Kept(ranked, budget) <==>
      ranked[k].candidateTokens + TakenAhead(ranked, (set c | c in Kept(ranked, budget)), ranked[k]) <= budget
  {
    var kept := set c | c in Kept(ranked, budget);
    KeptAtRank(ranked, budget, k);
    TakenAheadAtRank(ranked, kept, k);
    KeptTokens(ranked[..k], budget, (d: Candidate) => d in kept);
  }

  /** A candidate is excluded exactly when its cost exceeds the budget minus all
      the included candidates ranked above it. */
  lemma GreedyCharacterisation(cs: seq<Candidate>, budget: usize, c: Candidate)
    requires DistinctIds(cs) && c in cs
    ensures c !in ChosenSet(cs, budget) <==> c.candidateTokens > budget - TakenAhead(cs, ChosenSet(cs, budget), c)
  {
    RankedFacts(cs);
    var ranked := Ranked(cs);
    var k :| 0 <= k < |ranked| && ranked[k] == c;
    CharacterisedAtRank(ranked, budget, k);
    var taken := ChosenSet(cs, budget);
    TokensWherePermutes(ranked, cs, (d: Candidate) => d in taken && Ahead(d, c));
  }

  /** No feasible set of candidates takes a candidate the packer leaves out while
      agreeing with the packer on everything ranked above it: the packer's choice
      is the greatest feasible one in priority order. */
  lemma GreedyIsPriorityGreatest(cs: seq<Candidate>, budget: usize, other: set<Candidate>, c: Candidate)
    requires DistinctIds(cs) && c in cs
    requires TokensWhere(cs, (d: Candidate) => d in other) <= budget
    requires forall d :: d in cs && Ahead(d, c) ==> (d in other <==> d in ChosenSet(cs, budget))
    ensures c in other ==> c in ChosenSet(cs, budget)
  {
    GreedyCharacterisation(cs, budget, c);
    RankingIsStrictTotalOrder(c, c, c);
    var taken := ChosenSet(cs, budget);
    if c in other {
      TokensWhereSame(cs, (d: Candidate) => d in taken && Ahead(d, c), (d: Candidate) => d in other && Ahead(d, c));
      TokensWhereRoom(cs, (d: Candidate) => d in other && Ahead(d, c), (d: Candidate) => d in other, c);
    }
  }

  /** The characterisation has one solution: any set that satisfies it is the packer's. */
  lemma GreedyIsUnique(cs: seq<Candidate>, budget: usize, other: set<Candidate>)
    requires DistinctIds(cs)
    requires forall c :: c in cs ==> (c in other <==> c.candidateTokens + TakenAhead(cs, other, c) <= budget)
    ensures forall c :: c in cs ==> (c in other <==> c in ChosenSet(cs, budget))
  {
    RankedFacts(cs);
    var ranked := Ranked(cs);
    for k := 0 to |ranked|
      invariant forall j :: 0 <= j < k ==> (ranked[j] in other <==> ranked[j] in ChosenSet(cs, budget))
    {
      var c := ranked[k];
      AheadIsPrefix(ranked, k);
      forall d | d in cs && Ahead(d, c)
        ensures d in other <==> d in ChosenSet(cs, budget)
      {
        var j :| 0 <= j < |ranked| && ranked[j] == d;
      }
      GreedyCharacterisation(cs, budget, c);
      var taken := ChosenSet(cs, budget);
      TokensWhereSame(cs, (d: Candidate) => d in taken && Ahead(d, c), (d: Candidate) => d in other && Ahead(d, c));
    }
  }

  /** When the required candidates fit the budget together, all are included. */
  lemma RequiredFit(cs: seq<Candidate>, budget: usize, c: Candidate)
    requires DistinctIds(cs) && c in cs && c.required
    requires TokensWhere(cs, (d: Candidate) => d.required) <= budget
    ensures c in ChosenSet(cs, budget)
  {
    GreedyCharacterisation(cs, budget, c);
    var taken := ChosenSet(cs, budget);
    RankingIsStrictTotalOrder(c, c, c);
    TokensWhereRoom(cs, (d: Candidate) => d in taken && Ahead(d, c), (d: Candidate) => d.required, c);
  }

  /** Nothing left out would still fit beside what was taken. */
  lemma NothingElseFits(cs: seq<Candidate>, budget: usize, c: Candidate)
    requires DistinctIds(cs) && c in cs && c !in ChosenSet(cs, budget)
    ensures TokensWhere(cs, (d: Candidate) => d in ChosenSet(cs, budget)) + c.candidateTokens > budget
  {
    GreedyCharacterisation(cs, budget, c);
    var taken := ChosenSet(cs, budget);
    TokensWhereLe(cs, (d: Candidate) => d in taken && Ahead(d, c), (d: Candidate) => d in taken);
    TokensWhereSame(cs, (d: Candidate) => d in taken, (d: Candidate) => d in ChosenSet(cs, budget));
  }

  // ----- conservation

  lemma {:induction false} KeptAndDropped(ranked: seq<Candidate>, remaining: nat)
    ensures Tokens(Kept(ranked, remaining)) + Tokens(Dropped(ranked, remaining)) == Tokens(ranked)
  {
    if ranked != [] {
      GreedyStep(ranked, 0, remaining);
      assert ranked[0..] == ranked;
      if ranked[0].candidateTokens <= remaining {
        KeptAndDropped(ranked[1..], remaining - ranked[0].candidateTokens);
      } else {
        KeptAndDropped(ranked[1..], remaining);
      }
    }
  }

  /** Nothing of cost is kept exactly when everything costs nothing or more than the budget. */
  lemma {:induction false} KeptNothing(ranked: seq<Candidate>, remaining: nat)
    ensures Tokens(Kept(ranked, remaining)) == 0 <==>
      forall c :: c in ranked ==> c.candidateTokens == 0 || c.candidateTokens > remaining
  {
    if ranked != [] {
      var c, rest := ranked[0], ranked[1..];
      assert ranked == [c] + rest;
      if c.candidateTokens <= remaining {
        TokensCons(c, Kept(rest, remaining - c.candidateTokens));
        KeptNothing(rest, remaining - c.candidateTokens);
      } else {
        KeptNothing(rest, remaining);
      }
    }
  }

  /** The reported totals add up to the saturated candidate total exactly when the true total
      fits a `usize`, or every candidate costs nothing or more than the budget; duplicates are
      allowed. */
  lemma TokensConserved(cs: seq<Candidate>, budget: usize)
    ensures Pack(cs, budget).includedTokens <= budget
    ensures Pack(cs, budget).includedTokens + Pack(cs, budget).excludedTokens == Min(Tokens(cs), USIZE_MAX) <==>
      || Tokens(cs) <= USIZE_MAX
      || forall c :: c in cs ==> c.candidateTokens == 0 || c.candidateTokens > budget
  {
    RankedFacts(cs);
    KeptNothing(Ranked(cs), budget);
    KeptAndDropped(Ranked(cs), budget);
    TokensWherePermutes(Ranked(cs), cs, c => true);
  }

  // ----- the decisions, in the caller's order

  function Decision(taken: set<Candidate>): Candidate -> Selection {
    (c: Candidate) => if c in taken then Include(c) else Exclude(c)
  }

  lemma {:induction false} GreedyDecides(ranked: seq<Candidate>, remaining: nat, taken: set<Candidate>)
    requires DistinctIds(ranked)
    requires forall c :: c in ranked ==> (c in taken <==> c in Kept(ranked, remaining))
    ensures Greedy(ranked, remaining) == Map(Decision(taken), ranked)
  {
    if ranked != [] {
      var c, rest := ranked[0], ranked[1..];
      assert c !in rest && ranked == [c] + rest;
      assert Map(Decision(taken), ranked) == [Decision(taken)(c)] + Map(Decision(taken), rest);
      if c.candidateTokens <= remaining {
        GreedyDecides(rest, remaining - c.candidateTokens, taken);
      } else {
        KeptIsSubset(rest, remaining);
        GreedyDecides(rest, remaining, taken);
      }
    }
  }

  lemma PositionOfDistinct(cs: seq<Candidate>, i: nat)
    requires DistinctIds(cs) && i < |cs|
    ensures Position(cs, cs[i].id) == i
  {
  }

  lemma ByPositionSorts(cs: seq<Candidate>)
    ensures Total(ByPosition(cs)) && Transitive(ByPosition(cs))
  {
  }

  /** Sorting the greedy decisions by position gives one decision per candidate,
      in the caller's order. */
  lemma DecisionsInCallerOrder(cs: seq<Candidate>, budget: usize)
    requires DistinctIds(cs)
    ensures SortBy(ByPosition(cs), Greedy(Ranked(cs), budget)) == Map(Decision(ChosenSet(cs, budget)), cs)
  {
    RankedFacts(cs);
    var taken := ChosenSet(cs, budget);
    var le := ByPosition(cs);
    var greedy := Greedy(Ranked(cs), budget);
    var target := Map(Decision(taken), cs);
    GreedyDecides(Ranked(cs), budget, taken);
    MapPermutes(Decision(taken), Ranked(cs), cs);
    ByPositionSorts(cs);
    SortIsPermutation(le, greedy);
    SortIsSorted(le, greedy);
    forall i | 0 <= i < |target|
      ensures Position(cs, target[i].candidateId) == i
    {
      PositionOfDistinct(cs, i);
    }
    assert AntisymmetricOn(le, target);
    SortedUnique(le, target, SortBy(le, greedy));
  }

  function IncludedBefore(sels: seq<Selection>, i: nat): nat
    requires i <= |sels|
  {
    if i == 0 then 0 else IncludedBefore(sels, i - 1) + (if sels[i - 1].state == Included then 1 else 0)
  }

  lemma {:induction false} IncludedBeforeShift(s: Selection, sels: seq<Selection>, i: nat)
    requires i <= |sels|
    ensures IncludedBefore([s] + sels, i + 1) == (if s.state == Included then 1 else 0) + IncludedBefore(sels, i)
  {
    if i > 0 {
      IncludedBeforeShift(s, sels, i - 1);
      assert ([s] + sels)[i] == sels[i - 1];
    }
  }

  function NumberedOne(sels: seq<Selection>, next: nat, i: nat): Selection
    requires i < |sels|
  {
    if sels[i].state == Included then sels[i].(order := Some(next + IncludedBefore(sels, i))) else sels[i]
  }

  lemma {:induction false} NumberedLength(sels: seq<Selection>, next: nat)
    ensures |NumberFrom(sels, next)| == |sels|
  {
    if sels != [] {
      NumberedLength(sels[1..], if sels[0].state == Included then next + 1 else next);
    }
  }

  lemma {:induction false} NumberedAtIndex(sels: seq<Selection>, next: nat, i: nat)
    requires i < |sels| == |NumberFrom(sels, next)|
    ensures NumberFrom(sels, next)[i] == NumberedOne(sels, next, i)
  {
    if i > 0 {
      var rest, after := sels[1..], if sels[0].state == Included then next + 1 else next;
      NumberedLength(rest, after);
      NumberedAtIndex(rest, after, i - 1);
      IncludedBeforeShift(sels[0], rest, i - 1);
      assert sels == [sels[0]] + rest;
      assert NumberFrom(sels, next)[1..] == NumberFrom(rest, after);
    }
  }

  lemma NumberedAt(sels: seq<Selection>, next: nat)
    ensures |NumberFrom(sels, next)| == |sels|
    ensures forall i :: 0 <= i < |sels| ==> NumberFrom(sels, next)[i] == NumberedOne(sels, next, i)
  {
    NumberedLength(sels, next);
    forall i | 0 <= i < |sels|
      ensures NumberFrom(sels, next)[i] == NumberedOne(sels, next, i)
    {
      NumberedAtIndex(sels, next, i);
    }
  }

  /** One selection per candidate, in the caller's order, whose state says whether
      the greedy pass took it and whose tokens and reason agree with that state. */
  lemma SelectionsFollowCaller(cs: seq<Candidate>, budget: usize)
    requires DistinctIds(cs)
    ensures |Pack(cs, budget).selections| == |cs|
    ensures forall i :: 0 <= i < |cs| ==>
      var s := Pack(cs, budget).selections[i];
      && s.candidateId == cs[i].id
      && (s.state == Included <==> cs[i] in ChosenSet(cs, budget))
      && s.includedTokens == (if s.state == Included then cs[i].candidateTokens else 0)
      && (s.exclusionReason == if s.state == Included then None else Some(Budget))
      && !s.trimmed
      && (s.order.Some? <==> s.state == Included)
  {
    DecisionsInCallerOrder(cs, budget);
    NumberedAt(Map(Decision(ChosenSet(cs, budget)), cs), 0);
  }

  lemma {:induction false} IncludedBeforeMonotone(sels: seq<Selection>, i: nat, j: nat)
    requires i <= j <= |sels|
    ensures IncludedBefore(sels, i) <= IncludedBefore(sels, j)
  {
    if i < j {
      IncludedBeforeMonotone(sels, i, j - 1);
    }
  }

  lemma {:induction false} OrderIsReached(sels: seq<Selection>, n: nat, o: nat) returns (i: nat)
    requires n <= |sels| && o < IncludedBefore(sels, n)
    ensures i < n && sels[i].state == Included && IncludedBefore(sels, i) == o
  {
    if sels[n - 1].state == Included && o == IncludedBefore(sels, n - 1) {
      i := n - 1;
    } else {
      i := OrderIsReached(sels, n - 1, o);
    }
  }

  predicate IncreasingOrders(sels: seq<Selection>) {
    forall i, j :: 0 <= i < j < |sels| && sels[i].order.Some? && sels[j].order.Some? ==>
      sels[i].order.value < sels[j].order.value
  }

  predicate UsesOrder(sels: seq<Selection>, o: nat) {
    exists i :: 0 <= i < |sels| && sels[i].order == Some(o)
  }

  /** Orders are 0..k-1, each used once, increasing along the sequence. */
  ghost predicate ExactOrders(sels: seq<Selection>, k: nat) {
    IncreasingOrders(sels) && forall o: nat :: UsesOrder(sels, o) <==> o < k
  }

  lemma NumberingIncreases(raw: seq<Selection>)
    requires forall i :: 0 <= i < |raw| ==> raw[i].order == None
    ensures IncreasingOrders(NumberFrom(raw, 0))
  {
    NumberedAt(raw, 0);
    var sels := NumberFrom(raw, 0);
    forall i, j | 0 <= i < j < |sels| && sels[i].order.Some? && sels[j].order.Some?
      ensures sels[i].order.value < sels[j].order.value
    {
      IncludedBeforeMonotone(raw, i + 1, j);
    }
  }

  lemma UsedIsBelow(raw: seq<Selection>, i: nat)
    requires forall k :: 0 <= k < |raw| ==> raw[k].order == None
    requires i < |raw| && NumberedOne(raw, 0, i).order.Some?
    ensures NumberedOne(raw, 0, i).order.value < IncludedBefore(raw, |raw|)
  {
    IncludedBeforeMonotone(raw, i + 1, |raw|);
    assert raw[..i + 1][..i] == raw[..i];
  }

  lemma NumberingReaches(raw: seq<Selection>, o: nat)
    requires forall i :: 0 <= i < |raw| ==> raw[i].order == None
    ensures UsesOrder(NumberFrom(raw, 0), o) <==> o < IncludedBefore(raw, |raw|)
  {
    NumberedAt(raw, 0);
    var sels := NumberFrom(raw, 0);
    if UsesOrder(sels, o) {
      var i :| 0 <= i < |sels| && sels[i].order == Some(o);
      assert sels[i] == NumberedOne(raw, 0, i);
      UsedIsBelow(raw, i);
    }
    if o < IncludedBefore(raw, |raw|) {
      var i := OrderIsReached(raw, |raw|, o);
      assert sels[i] == NumberedOne(raw, 0, i);
    }
  }

  lemma NumberingIsExact(raw: seq<Selection>)
    requires forall i :: 0 <= i < |raw| ==> raw[i].order == None
    ensures ExactOrders(NumberFrom(raw, 0), IncludedBefore(raw, |raw|))
  {
    NumberingIncreases(raw);
    forall o: nat
      ensures UsesOrder(NumberFrom(raw, 0), o) <==> o < IncludedBefore(raw, |raw|)
    {
      NumberingReaches(raw, o);
    }
  }

  lemma {:induction false} IncludedBeforeSame(a: seq<Selection>, b: seq<Selection>, n: nat)
    requires |a| == |b| && n <= |a|
    requires forall i :: 0 <= i < |a| ==> a[i].state == b[i].state
    ensures IncludedBefore(a, n) == IncludedBefore(b, n)
  {
    if n > 0 {
      IncludedBeforeSame(a, b, n - 1);
    }
  }

  /** Render orders are exactly 0..k-1 for k included selections, in the caller's order. */
  lemma OrdersAreExact(cs: seq<Candidate>, budget: usize)
    requires DistinctIds(cs)
    ensures var sels := Pack(cs, budget).selections; ExactOrders(sels, IncludedBefore(sels, |sels|))
  {
    DecisionsInCallerOrder(cs, budget);
    var raw := Map(Decision(ChosenSet(cs, budget)), cs);
    NumberingIsExact(raw);
    NumberedAt(raw, 0);
    IncludedBeforeSame(raw, NumberFrom(raw, 0), |raw|);
  }

  lemma RankingIgnoresInputOrder(a: seq<Candidate>, b: seq<Candidate>)
    requires DistinctIds(a) && multiset(a) == multiset(b)
    ensures Ranked(a) == Ranked(b)
  {
    RankedFacts(a);
    RankedFacts(b);
    forall c, d | c in Ranked(a) && d in Ranked(a) && NotBehind(c, d) && NotBehind(d, c)
      ensures c == d
    {
      CompareReverses(c, d);
      EqualRankEqualId(c, d);
    }
    SortedUnique(NotBehind, Ranked(a), Ranked(b));
  }

  /** Reordering the input changes neither the included set nor the totals nor the
      decision about any one candidate. */
  lemma PackingIgnoresInputOrder(a: seq<Candidate>, b: seq<Candidate>, budget: usize)
    requires DistinctIds(a) && multiset(a) == multiset(b)
    ensures ChosenSet(a, budget) == ChosenSet(b, budget)
    ensures Pack(a, budget).includedTokens == Pack(b, budget).includedTokens
    ensures Pack(a, budget).excludedTokens == Pack(b, budget).excludedTokens
    ensures |Pack(a, budget).selections| == |a| && |Pack(b, budget).selections| == |b|
    ensures forall i, j :: 0 <= i < |a| && 0 <= j < |b| && a[i].id == b[j].id ==>
      Pack(a, budget).selections[i].state == Pack(b, budget).selections[j].state
  {
    RankingIgnoresInputOrder(a, b);
    DistinctPermutes(a, b);
    SelectionsFollowCaller(a, budget);
    SelectionsFollowCaller(b, budget);
    forall i, j | 0 <= i < |a| && 0 <= j < |b| && a[i].id == b[j].id
      ensures Pack(a, budget).selections[i].state == Pack(b, budget).selections[j].state
    {
      InMultiset(b[j], a);
      assert b[j] in multiset(b);
      assert a[i] == b[j];
    }
  }

  // ----- missing scores

  function ZeroFilled(c: Candidate): Candidate {
    c.(relevanceScore := Some(ScoreOrZero(c.relevanceScore)), freshnessScore := Some(ScoreOrZero(c.freshnessScore)))
  }

  lemma ZeroFillKeepsRank(a: Candidate, b: Candidate)
    ensures CompareCandidates(ZeroFilled(a), ZeroFilled(b)) == CompareCandidates(a, b)
  {
  }

  lemma {:induction false} ZeroFilledInsert(c: Candidate, sorted: seq<Candidate>)
    ensures Insert(NotBehind, ZeroFilled(c), Map(ZeroFilled, sorted)) == Map(ZeroFilled, Insert(NotBehind, c, sorted))
  {
    if sorted != [] {
      ZeroFillKeepsRank(c, sorted[0]);
      assert Map(ZeroFilled, sorted)[1..] == Map(ZeroFilled, sorted[1..]);
      ZeroFilledInsert(c, sorted[1..]);
    }
  }

  lemma {:induction false} ZeroFilledSort(cs: seq<Candidate>)
    ensures SortBy(NotBehind, Map(ZeroFilled, cs)) == Map(ZeroFilled, SortBy(NotBehind, cs))
  {
    if cs != [] {
      assert Map(ZeroFilled, cs)[1..] == Map(ZeroFilled, cs[1..]);
      ZeroFilledSort(cs[1..]);
      ZeroFilledInsert(cs[0], SortBy(NotBehind, cs[1..]));
    }
  }

  lemma {:induction false} ZeroFilledGreedy(ranked: seq<Candidate>, remaining: nat)
    ensures Greedy(Map(ZeroFilled, ranked), remaining) == Greedy(ranked, remaining)
    ensures Tokens(Kept(Map(ZeroFilled, ranked), remaining)) == Tokens(Kept(ranked, remaining))
    ensures Tokens(Dropped(Map(ZeroFilled, ranked), remaining)) == Tokens(Dropped(ranked, remaining))
    decreases |ranked|
  {
    if ranked != [] {
      var c, left := ranked[0], remaining - ranked[0].candidateTokens;
      assert Map(ZeroFilled, ranked)[1..] == Map(ZeroFilled, ranked[1..]);
      if left >= 0 {
        ZeroFilledGreedy(ranked[1..], left);
        TokensCons(c, Kept(ranked[1..], left));
        TokensCons(ZeroFilled(c), Kept(Map(ZeroFilled, ranked[1..]), left));
      } else {
        ZeroFilledGreedy(ranked[1..], remaining);
        TokensCons(c, Dropped(ranked[1..], remaining));
        TokensCons(ZeroFilled(c), Dropped(Map(ZeroFilled, ranked[1..]), remaining));
      }
    }
  }

  lemma {:induction false} ZeroFilledPosition(cs: seq<Candidate>, id: string)
    ensures Position(Map(ZeroFilled, cs), id) == Position(cs, id)
  {
    if cs != [] {
      var filled := Map(ZeroFilled, cs);
      assert filled[0].id == cs[0].id && filled[1..] == Map(ZeroFilled, cs[1..]);
      ZeroFilledPosition(cs[1..], id);
    }
  }

  lemma {:induction false} InsertSame<T(!new)>(le: (T, T) -> bool, other: (T, T) -> bool, x: T, s: seq<T>)
    requires forall a, b :: le(a, b) == other(a, b)
    ensures Insert(le, x, s) == Insert(other, x, s)
  {
    if s != [] {
      InsertSame(le, other, x, s[1..]);
    }
  }

  lemma {:induction false} SortSame<T(!new)>(le: (T, T) -> bool, other: (T, T) -> bool, s: seq<T>)
    requires forall a, b :: le(a, b) == other(a, b)
    ensures SortBy(le, s) == SortBy(other, s)
  {
    if s != [] {
      SortSame(le, other, s[1..]);
      InsertSame(le, other, s[0], SortBy(le, s[1..]));
    }
  }

  /** A missing score packs exactly like a score of zero, whatever else is offered. */
  lemma MissingScoresPackAsZero(cs: seq<Candidate>, budget: usize)
    ensures Pack(Map(ZeroFilled, cs), budget) == Pack(cs, budget)
  {
    var filled := Map(ZeroFilled, cs);
    ZeroFilledSort(cs);
    ZeroFilledGreedy(Ranked(cs), budget);
    forall a: Selection, b: Selection
      ensures ByPosition(filled)(a, b) == ByPosition(cs)(a, b)
    {
      ZeroFilledPosition(cs, a.candidateId);
      ZeroFilledPosition(cs, b.candidateId);
    }
    SortSame(ByPosition(filled), ByPosition(cs), Greedy(Ranked(cs), budget));
  }
}
