/** The snapshot of one context build, its independent validator, and the proof
    that the packer's output is accepted by it. */
module Pipeline {
  import opened Wrappers
  import opened Machine
  import opened Text
  import opened Packing
  import opened PackingProperties

  const CONTEXT_PIPELINE_VERSION: u32 := 1

  datatype Snapshot = Snapshot(
    version: u32,
    project: string,
    taskId: string,
    tokenBudget: Option<usize>,
    candidateTokens: usize,
    includedTokens: usize,
    contextFingerprint: string,
    candidates: seq<Candidate>,
    selections: seq<Selection>)

  datatype SelectionProblem =
    | IncludedWithReason | IncludedTokensExceed | IncludedWithoutOrder
    | ExcludedWithTokens | ExcludedTrimmed | ExcludedWithoutReason | ExcludedWithOrder

  datatype ValidationError =
    | UnsupportedVersion | EmptyProject | EmptyTaskId | EmptyContextFingerprint
    | EmptyCandidateId | DuplicateCandidate(id: string)
    | EmptyLocator(id: string) | EmptyFingerprint(id: string) | InvalidScore(id: string)
    | CandidateTotalMismatch
    | UnknownCandidate(id: string) | DuplicateSelection(id: string)
    | BadSelection(id: string, problem: SelectionProblem) | DuplicateOrder(order: nat)
    | MissingSelection | IncludedTotalMismatch | OverBudget

  // ----- what a valid snapshot is

  predicate ScoreFine(score: Option<real>) {
    score.Some? ==> 0.0 <= score.value <= 1.0
  }

  predicate CandidateFine(c: Candidate) {
    && !Blank(c.id) && !Blank(c.locator) && !Blank(c.fingerprint)
    && ScoreFine(c.relevanceScore) && ScoreFine(c.freshnessScore)
  }

  /** State, tokens, reason and order agree with each other and with the candidate. */
  predicate SelectionSound(c: Candidate, s: Selection) {
    match s.state
    case Included => s.exclusionReason.None? && s.order.Some? && s.includedTokens <= c.candidateTokens
    case Excluded => s.includedTokens == 0 && !s.trimmed && s.exclusionReason.Some? && s.order.None?
  }

  predicate SelectionFine(cs: seq<Candidate>, s: Selection) {
    Position(cs, s.candidateId) < |cs| && SelectionSound(cs[Position(cs, s.candidateId)], s)
  }

  predicate DistinctSelections(sels: seq<Selection>) {
    forall i, j :: 0 <= i < j < |sels| ==> sels[i].candidateId != sels[j].candidateId
  }

  predicate DistinctOrders(sels: seq<Selection>) {
    forall i, j :: 0 <= i < j < |sels| && sels[i].state == Included && sels[j].state == Included ==>
      sels[i].order != sels[j].order
  }

  predicate Selects(sels: seq<Selection>, id: string) {
    exists j :: 0 <= j < |sels| && sels[j].candidateId == id
  }

  predicate EveryCandidateSelected(cs: seq<Candidate>, sels: seq<Selection>) {
    forall i :: 0 <= i < |cs| ==> Selects(sels, cs[i].id)
  }

  function SelectedTokens(sels: seq<Selection>): nat {
    if sels == [] then 0 else SelectedTokens(sels[..|sels| - 1]) + sels[|sels| - 1].includedTokens
  }

  function IncludedOnly(sels: seq<Selection>): nat {
    if sels == [] then 0
    else
      var last := sels[|sels| - 1];
      IncludedOnly(sels[..|sels| - 1]) + (if last.state == Included then last.includedTokens else 0)
  }

  ghost predicate Consistent(s: Snapshot) {
    && s.version == CONTEXT_PIPELINE_VERSION
    && !Blank(s.project) && !Blank(s.taskId) && !Blank(s.contextFingerprint)
    && (forall i :: 0 <= i < |s.candidates| ==> CandidateFine(s.candidates[i]))
    && DistinctIds(s.candidates)
    && s.candidateTokens == Min(Tokens(s.candidates), USIZE_MAX)
    && (forall i :: 0 <= i < |s.selections| ==> SelectionFine(s.candidates, s.selections[i]))
    && DistinctSelections(s.selections)
    && DistinctOrders(s.selections)
    && EveryCandidateSelected(s.candidates, s.selections)
    && s.includedTokens == Min(IncludedOnly(s.selections), USIZE_MAX)
    && (s.tokenBudget.Some? ==> s.includedTokens <= s.tokenBudget.value)
  }

  // ----- the validator

  lemma TokensAppend(cs: seq<Candidate>, i: nat)
    requires i < |cs|
    ensures Tokens(cs[..i + 1]) == Tokens(cs[..i]) + cs[i].candidateTokens
  {
    assert cs[..i + 1] == cs[..i] + [cs[i]];
    TokensWhereConcat(cs[..i], [cs[i]], c => true);
  }

  method ValidateScore(id: string, score: Option<real>) returns (r: Result<(), ValidationError>)
    ensures r.Success? <==> ScoreFine(score)
    ensures r.Failure? ==> r.error == InvalidScore(id)
  {
    if score.Some? && !(0.0 <= score.value <= 1.0) {
      return Failure(InvalidScore(id));
    }
    return Success(());
  }

  /** Which failing candidate check each error reports. */
  predicate CandidateFault(cs: seq<Candidate>, e: ValidationError) {
    match e
    case EmptyCandidateId => exists i :: 0 <= i < |cs| && Blank(cs[i].id)
    case DuplicateCandidate(id) => exists i, j :: 0 <= i < j < |cs| && cs[i].id == id && cs[j].id == id
    case EmptyLocator(id) => exists i :: 0 <= i < |cs| && cs[i].id == id && Blank(cs[i].locator)
    case EmptyFingerprint(id) => exists i :: 0 <= i < |cs| && cs[i].id == id && Blank(cs[i].fingerprint)
    case InvalidScore(id) =>
      exists i :: 0 <= i < |cs| && cs[i].id == id
        && !(ScoreFine(cs[i].relevanceScore) && ScoreFine(cs[i].freshnessScore))
    case _ => false
  }

  method ValidateCandidates(cs: seq<Candidate>)
    returns (r: Result<(), ValidationError>, ids: set<string>, total: usize)
    ensures r.Success? <==> DistinctIds(cs) && forall i :: 0 <= i < |cs| ==> CandidateFine(cs[i])
    ensures r.Success? ==> ids == (set c | c in cs :: c.id) && total == Min(Tokens(cs), USIZE_MAX)
    ensures r.Failure? ==> CandidateFault(cs, r.error)
  {
    ids := {};
    total := 0;
    for i := 0 to |cs|
      invariant forall k :: 0 <= k < i ==> CandidateFine(cs[k])
      invariant forall j, k :: 0 <= j < k < i ==> cs[j].id != cs[k].id
      invariant ids == set c | c in cs[..i] :: c.id
      invariant total == Min(Tokens(cs[..i]), USIZE_MAX)
    {
      var c := cs[i];
      TokensAppend(cs, i);
      assert cs[..i + 1] == cs[..i] + [c];
      if Blank(c.id) {
        return Failure(EmptyCandidateId), ids, total;
      }
      if c.id in ids {
        assert exists k :: 0 <= k < i && cs[k].id == c.id;
        return Failure(DuplicateCandidate(c.id)), ids, total;
      }
      ids := ids + {c.id};
      if Blank(c.locator) {
        return Failure(EmptyLocator(c.id)), ids, total;
      }
      if Blank(c.fingerprint) {
        return Failure(EmptyFingerprint(c.id)), ids, total;
      }
      r := ValidateScore(c.id, c.relevanceScore);
      if r.Failure? {
        return;
      }
      r := ValidateScore(c.id, c.freshnessScore);
      if r.Failure? {
        return;
      }
      total := SatAdd(total, c.candidateTokens);
    }
    assert cs[..|cs|] == cs;
    r := Success(());
  }

  /** What each problem says about a selection `s` of candidate `c`. */
  predicate Suffers(c: Candidate, s: Selection, problem: SelectionProblem) {
    match problem
    case IncludedWithReason => s.state == Included && s.exclusionReason.Some?
    case IncludedTokensExceed => s.state == Included && s.includedTokens > c.candidateTokens
    case IncludedWithoutOrder => s.state == Included && s.order.None?
    case ExcludedWithTokens => s.state == Excluded && s.includedTokens != 0
    case ExcludedTrimmed => s.state == Excluded && s.trimmed
    case ExcludedWithoutReason => s.state == Excluded && s.exclusionReason.None?
    case ExcludedWithOrder => s.state == Excluded && s.order.Some?
  }

  /** Which failing selection check each error reports. */
  predicate SelectionFault(cs: seq<Candidate>, sels: seq<Selection>, e: ValidationError) {
    match e
    case UnknownCandidate(id) => exists i :: 0 <= i < |sels| && sels[i].candidateId == id && Position(cs, id) == |cs|
    case DuplicateSelection(id) =>
      exists i, j :: 0 <= i < j < |sels| && sels[i].candidateId == id && sels[j].candidateId == id
    case DuplicateOrder(order) =>
      exists i, j :: 0 <= i < j < |sels| && sels[i].state == Included && sels[j].state == Included
        && sels[i].order == Some(order) && sels[j].order == Some(order)
    case BadSelection(id, problem) =>
      && Position(cs, id) < |cs|
      && exists i :: 0 <= i < |sels| && sels[i].candidateId == id && Suffers(cs[Position(cs, id)], sels[i], problem)
    case _ => false
  }

  /** The checks on one selection, in the validator's order. */
  function CheckSelection(c: Candidate, s: Selection): (problem: Option<SelectionProblem>)
    ensures problem.Some? ==> Suffers(c, s, problem.value)
    ensures problem.None? <==> SelectionSound(c, s)
  {
    match s.state
    case Included =>
      if s.exclusionReason.Some? then Some(IncludedWithReason)
      else if s.includedTokens > c.candidateTokens then Some(IncludedTokensExceed)
      else if s.order.None? then Some(IncludedWithoutOrder)
      else None
    case Excluded =>
      if s.includedTokens != 0 then Some(ExcludedWithTokens)
      else if s.trimmed then Some(ExcludedTrimmed)
      else if s.exclusionReason.None? then Some(ExcludedWithoutReason)
      else if s.order.Some? then Some(ExcludedWithOrder)
      else None
  }

  /** The set of render orders the included selections of a prefix use. */
  ghost predicate UsedOrders(sels: seq<Selection>, orders: set<nat>) {
    forall o: nat :: o in orders <==>
      exists i :: 0 <= i < |sels| && sels[i].state == Included && sels[i].order == Some(o)
  }

  ghost predicate SelectionsFine(cs: seq<Candidate>, sels: seq<Selection>) {
    && (forall i :: 0 <= i < |sels| ==> SelectionFine(cs, sels[i]))
    && DistinctSelections(sels)
    && DistinctOrders(sels)
  }

  /** One more fine selection with an unused id and an unused order. */
  lemma SelectionsGrow(cs: seq<Candidate>, sels: seq<Selection>, s: Selection, orders: set<nat>)
    requires SelectionsFine(cs, sels) && UsedOrders(sels, orders)
    requires SelectionFine(cs, s)
    requires forall i :: 0 <= i < |sels| ==> sels[i].candidateId != s.candidateId
    requires s.state == Included ==> s.order.value !in orders
    ensures SelectionsFine(cs, sels + [s])
    ensures UsedOrders(sels + [s], if s.state == Included then orders + {s.order.value} else orders)
  {
    var grown := sels + [s];
    assert forall i :: 0 <= i < |sels| ==> grown[i] == sels[i];
    assert grown[|sels|] == s;
    forall o: nat | exists i :: 0 <= i < |sels| && sels[i].state == Included && sels[i].order == Some(o)
      ensures exists i :: 0 <= i < |grown| && grown[i].state == Included && grown[i].order == Some(o)
    {
      var i :| 0 <= i < |sels| && sels[i].state == Included && sels[i].order == Some(o);
      assert grown[i] == sels[i];
    }
  }

  lemma IncludedOnlyGrows(sels: seq<Selection>, s: Selection)
    ensures IncludedOnly(sels + [s]) == IncludedOnly(sels) + (if s.state == Included then s.includedTokens else 0)
  {
    assert (sels + [s])[..|sels|] == sels;
  }

  /** A reported fault really is one: it rules the selections out. */
  lemma FaultIsFatal(cs: seq<Candidate>, sels: seq<Selection>, e: ValidationError)
    requires SelectionFault(cs, sels, e)
    ensures !SelectionsFine(cs, sels)
  {
    if e.BadSelection? {
      var i :| 0 <= i < |sels| && sels[i].candidateId == e.id && Suffers(cs[Position(cs, e.id)], sels[i], e.problem);
      assert !SelectionFine(cs, sels[i]);
    }
  }

  /** The checks on one selection against what the prefix before it has used. */
  method ValidateSelection(cs: seq<Candidate>, candidateIds: set<string>, ghost sels: seq<Selection>, s: Selection,
                           selectedIds: set<string>, includedOrders: set<nat>)
    returns (e: Option<ValidationError>)
    requires candidateIds == set c | c in cs :: c.id
    requires SelectionsFine(cs, sels)
    requires selectedIds == set s | s in sels :: s.candidateId
    requires UsedOrders(sels, includedOrders)
    ensures e.Some? ==> SelectionFault(cs, sels + [s], e.value)
    ensures e.None? ==> SelectionFine(cs, s) && s.candidateId !in selectedIds
    ensures e.None? && s.state == Included ==> s.order.value !in includedOrders
  {
    ghost var grown := sels + [s];
    assert grown[|sels|] == s && forall i :: 0 <= i < |sels| ==> grown[i] == sels[i];
    if s.candidateId !in candidateIds {
      return Some(UnknownCandidate(s.candidateId));
    }
    if s.candidateId in selectedIds {
      assert exists k :: 0 <= k < |sels| && grown[k].candidateId == s.candidateId;
      return Some(DuplicateSelection(s.candidateId));
    }
    var c := cs[Position(cs, s.candidateId)];
    var problem := CheckSelection(c, s);
    if problem.Some? {
      return Some(BadSelection(s.candidateId, problem.value));
    }
    if s.state == Included && s.order.value in includedOrders {
      ghost var k :| 0 <= k < |sels| && sels[k].state == Included && sels[k].order == s.order;
      assert grown[k] == sels[k];
      return Some(DuplicateOrder(s.order.value));
    }
    return None;
  }

  lemma FaultInPrefix(cs: seq<Candidate>, sels: seq<Selection>, i: nat, e: ValidationError)
    requires i <= |sels| && SelectionFault(cs, sels[..i], e)
    ensures SelectionFault(cs, sels, e)
  {
    assert forall k :: 0 <= k < i ==> sels[..i][k] == sels[k];
  }

  method ValidateSelections(cs: seq<Candidate>, candidateIds: set<string>, sels: seq<Selection>)
    returns (r: Result<(), ValidationError>, selectedIds: set<string>, total: usize)
    requires candidateIds == set c | c in cs :: c.id
    ensures r.Success? <==> SelectionsFine(cs, sels)
    ensures r.Success? ==>
      selectedIds == (set s | s in sels :: s.candidateId) && total == Min(IncludedOnly(sels), USIZE_MAX)
    ensures r.Failure? ==> SelectionFault(cs, sels, r.error)
  {
    selectedIds := {};
    total := 0;
    var includedOrders: set<nat> := {};
    for i := 0 to |sels|
      invariant SelectionsFine(cs, sels[..i])
      invariant selectedIds == set s | s in sels[..i] :: s.candidateId
      invariant UsedOrders(sels[..i], includedOrders)
      invariant total == Min(IncludedOnly(sels[..i]), USIZE_MAX)
    {
      var s := sels[i];
      assert sels[..i + 1] == sels[..i] + [s];
      var fault := ValidateSelection(cs, candidateIds, sels[..i], s, selectedIds, includedOrders);
      if fault.Some? {
        FaultInPrefix(cs, sels, i + 1, fault.value);
        FaultIsFatal(cs, sels, fault.value);
        return Failure(fault.value), selectedIds, total;
      }
      SelectionsGrow(cs, sels[..i], s, includedOrders);
      IncludedOnlyGrows(sels[..i], s);
      selectedIds := selectedIds + {s.candidateId};
      if s.state == Included {
        includedOrders := includedOrders + {s.order.value};
        total := SatAdd(total, s.includedTokens);
      }
    }
    assert sels[..|sels|] == sels;
    r := Success(());
  }

  lemma {:induction false} SubsetCardinality<T>(a: set<T>, b: set<T>)
    requires a <= b
    ensures |a| == |b| <==> a == b
  {
    assert b == a + (b - a) && |b| == |a| + |b - a|;
  }

  method Validate(s: Snapshot) returns (r: Result<(), ValidationError>)
    ensures r.Success? <==> Consistent(s)
    ensures r.Failure? ==> Justified(s, r.error)
  {
    if s.version != CONTEXT_PIPELINE_VERSION {
      return Failure(UnsupportedVersion);
    }
    if Blank(s.project) {
      return Failure(EmptyProject);
    }
    if Blank(s.taskId) {
      return Failure(EmptyTaskId);
    }
    if Blank(s.contextFingerprint) {
      return Failure(EmptyContextFingerprint);
    }
    var candidateIds, expectedCandidateTokens;
    r, candidateIds, expectedCandidateTokens := ValidateCandidates(s.candidates);
    if r.Failure? {
      return;
    }
    if s.candidateTokens != expectedCandidateTokens {
      return Failure(CandidateTotalMismatch);
    }
    var selectedIds, expectedIncludedTokens;
    r, selectedIds, expectedIncludedTokens := ValidateSelections(s.candidates, candidateIds, s.selections);
    if r.Failure? {
      return;
    }
    SelectedAreCandidates(s.candidates, s.selections, candidateIds, selectedIds);
    if |selectedIds| != |candidateIds| {
      return Failure(MissingSelection);
    }
    if s.includedTokens != expectedIncludedTokens {
      return Failure(IncludedTotalMismatch);
    }
    if s.tokenBudget.Some? && s.includedTokens > s.tokenBudget.value {
      return Failure(OverBudget);
    }
    return Success(());
  }

  lemma SelectedAreCandidates(cs: seq<Candidate>, sels: seq<Selection>, ids: set<string>, selected: set<string>)
    requires ids == (set c | c in cs :: c.id) && selected == set s | s in sels :: s.candidateId
    requires SelectionsFine(cs, sels)
    ensures |selected| == |ids| <==> EveryCandidateSelected(cs, sels)
  {
    forall id | id in selected
      ensures id in ids
    {
      var s :| s in sels && s.candidateId == id;
      assert cs[Position(cs, id)] in cs;
    }
    SubsetCardinality(selected, ids);
    if selected == ids {
      forall i | 0 <= i < |cs|
        ensures Selects(sels, cs[i].id)
      {
        assert cs[i].id in ids;
        var s :| s in sels && s.candidateId == cs[i].id;
        var j :| 0 <= j < |sels| && sels[j] == s;
      }
    }
    if EveryCandidateSelected(cs, sels) {
      forall id | id in ids
        ensures id in selected
      {
        var c :| c in cs && c.id == id;
        var i :| 0 <= i < |cs| && cs[i] == c;
        assert Selects(sels, cs[i].id);
        var j :| 0 <= j < |sels| && sels[j].candidateId == cs[i].id;
        assert sels[j] in sels;
      }
      assert selected == ids;
    }
  }

  /** Every error names a condition that really fails. */
  ghost predicate Justified(s: Snapshot, e: ValidationError) {
    match e
    case UnsupportedVersion => s.version != CONTEXT_PIPELINE_VERSION
    case EmptyProject => Blank(s.project)
    case EmptyTaskId => Blank(s.taskId)
    case EmptyContextFingerprint => Blank(s.contextFingerprint)
    case CandidateTotalMismatch => s.candidateTokens != Min(Tokens(s.candidates), USIZE_MAX)
    case MissingSelection => !EveryCandidateSelected(s.candidates, s.selections)
    case IncludedTotalMismatch => s.includedTokens != Min(IncludedOnly(s.selections), USIZE_MAX)
    case OverBudget => s.tokenBudget.Some? && s.includedTokens > s.tokenBudget.value
    case _ => CandidateFault(s.candidates, e) || SelectionFault(s.candidates, s.selections, e)
  }

  // ----- building a snapshot

  function Build(project: string, taskId: string, contextFingerprint: string, tokenBudget: Option<usize>,
                 candidates: seq<Candidate>, selections: seq<Selection>): Snapshot
  {
    Snapshot(CONTEXT_PIPELINE_VERSION, project, taskId, tokenBudget,
             Min(Tokens(candidates), USIZE_MAX), Min(SelectedTokens(selections), USIZE_MAX),
             contextFingerprint, candidates, selections)
  }

  method New(project: string, taskId: string, contextFingerprint: string, tokenBudget: Option<usize>,
             candidates: seq<Candidate>, selections: seq<Selection>)
    returns (r: Result<Snapshot, ValidationError>)
    ensures r.Success? <==> Consistent(Build(project, taskId, contextFingerprint, tokenBudget, candidates, selections))
    ensures r.Success? ==> r.value == Build(project, taskId, contextFingerprint, tokenBudget, candidates, selections)
    ensures r.Failure? ==>
      Justified(Build(project, taskId, contextFingerprint, tokenBudget, candidates, selections), r.error)
  {
    var candidateTokens: usize := 0;
    for i := 0 to |candidates|
      invariant candidateTokens == Min(Tokens(candidates[..i]), USIZE_MAX)
    {
      TokensAppend(candidates, i);
      candidateTokens := SatAdd(candidateTokens, candidates[i].candidateTokens);
    }
    assert candidates[..|candidates|] == candidates;
    var includedTokens: usize := 0;
    for i := 0 to |selections|
      invariant includedTokens == Min(SelectedTokens(selections[..i]), USIZE_MAX)
    {
      assert selections[..i + 1][..i] == selections[..i];
      includedTokens := SatAdd(includedTokens, selections[i].includedTokens);
    }
    assert selections[..|selections|] == selections;
    var snapshot := Snapshot(CONTEXT_PIPELINE_VERSION, project, taskId, tokenBudget, candidateTokens,
                             includedTokens, contextFingerprint, candidates, selections);
    var checked := Validate(snapshot);
    match checked
    case Success(_) => r := Success(snapshot);
    case Failure(e) => r := Failure(e);
  }

  // ----- packer output against the validator

  lemma {:induction false} ExcludedAddNothing(sels: seq<Selection>)
    requires forall i :: 0 <= i < |sels| && sels[i].state == Excluded ==> sels[i].includedTokens == 0
    ensures SelectedTokens(sels) == IncludedOnly(sels)
  {
    if sels != [] {
      ExcludedAddNothing(sels[..|sels| - 1]);
    }
  }

  lemma {:induction false} IncludedOnlyIsTaken(cs: seq<Candidate>, sels: seq<Selection>, p: Candidate -> bool)
    requires |sels| == |cs|
    requires forall i :: 0 <= i < |cs| ==>
      && (sels[i].state == Included <==> p(cs[i]))
      && (sels[i].state == Included ==> sels[i].includedTokens == cs[i].candidateTokens)
    ensures IncludedOnly(sels) == TokensWhere(cs, p)
  {
    if cs != [] {
      var n := |cs| - 1;
      IncludedOnlyIsTaken(cs[..n], sels[..n], p);
      assert cs == cs[..n] + [cs[n]];
      TokensWhereConcat(cs[..n], [cs[n]], p);
    }
  }

  /** The packer's total is what the validator re-derives from its selections. */
  lemma PackedTotalIsDerived(cs: seq<Candidate>, budget: usize)
    requires DistinctIds(cs)
    ensures IncludedOnly(Pack(cs, budget).selections) == Pack(cs, budget).includedTokens
    ensures SelectedTokens(Pack(cs, budget).selections) == Pack(cs, budget).includedTokens
  {
    SelectionsFollowCaller(cs, budget);
    var sels := Pack(cs, budget).selections;
    var p := (d: Candidate) => d in ChosenSet(cs, budget);
    ExcludedAddNothing(sels);
    IncludedOnlyIsTaken(cs, sels, p);
    RankedFacts(cs);
    TokensWherePermutes(cs, Ranked(cs), p);
    KeptTokens(Ranked(cs), budget, p);
  }

  lemma PackedSelectionsFine(cs: seq<Candidate>, budget: usize)
    requires DistinctIds(cs)
    ensures SelectionsFine(cs, Pack(cs, budget).selections)
    ensures EveryCandidateSelected(cs, Pack(cs, budget).selections)
  {
    SelectionsFollowCaller(cs, budget);
    OrdersAreExact(cs, budget);
    var sels := Pack(cs, budget).selections;
    forall i | 0 <= i < |sels|
      ensures SelectionFine(cs, sels[i])
    {
      PositionOfDistinct(cs, i);
    }
    forall i | 0 <= i < |cs|
      ensures Selects(sels, cs[i].id)
    {
      assert sels[i].candidateId == cs[i].id;
    }
  }

  /** A snapshot built from the packer's selections with its own budget validates
      exactly when its metadata is non-blank and its candidates are fine and have
      distinct ids; no bound on the token sums is needed. */
  lemma PackerOutputValidates(project: string, taskId: string, contextFingerprint: string,
                              budget: usize, cs: seq<Candidate>)
    ensures
      Consistent(Build(project, taskId, contextFingerprint, Some(budget), cs, Pack(cs, budget).selections)) <==>
        && !Blank(project) && !Blank(taskId) && !Blank(contextFingerprint)
        && (forall i :: 0 <= i < |cs| ==> CandidateFine(cs[i]))
        && DistinctIds(cs)
  {
    if DistinctIds(cs) {
      PackedTotalIsDerived(cs, budget);
      PackedSelectionsFine(cs, budget);
      TokensConserved(cs, budget);
    }
  }
}
