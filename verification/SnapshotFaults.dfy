/** What is wrong with a snapshot, fault by fault, on its own fields: a snapshot validates
    exactly when it has none of the faults, and every reported error is one of them. */
module SnapshotFaults {
  import opened Wrappers
  import opened Machine
  import opened Text
  import opened Packing
  import opened Pipeline

  predicate OutOfRange(score: Option<real>) {
    score.Some? && (score.value < 0.0 || score.value > 1.0)
  }

  predicate IsCandidate(s: Snapshot, id: string) {
    exists k :: 0 <= k < |s.candidates| && s.candidates[k].id == id
  }

  predicate IsSelected(s: Snapshot, id: string) {
    exists j :: 0 <= j < |s.selections| && s.selections[j].candidateId == id
  }

  predicate Problem(c: Candidate, s: Selection, problem: SelectionProblem) {
    match problem
    case IncludedWithReason => s.state == Included && s.exclusionReason != None
    case IncludedTokensExceed => s.state == Included && c.candidateTokens < s.includedTokens
    case IncludedWithoutOrder => s.state == Included && s.order == None
    case ExcludedWithTokens => s.state == Excluded && s.includedTokens > 0
    case ExcludedTrimmed => s.state == Excluded && s.trimmed
    case ExcludedWithoutReason => s.state == Excluded && s.exclusionReason == None
    case ExcludedWithOrder => s.state == Excluded && s.order != None
  }

  /** The snapshot has the fault that the error names. */
  predicate HasFault(s: Snapshot, e: ValidationError) {
    match e
    case UnsupportedVersion => s.version != 1
    case EmptyProject => Blank(s.project)
    case EmptyTaskId => Blank(s.taskId)
    case EmptyContextFingerprint => Blank(s.contextFingerprint)
    case EmptyCandidateId => exists i :: 0 <= i < |s.candidates| && Blank(s.candidates[i].id)
    case DuplicateCandidate(id) =>
      exists i, j :: 0 <= i < j < |s.candidates| && s.candidates[i].id == id == s.candidates[j].id
    case EmptyLocator(id) =>
      exists i :: 0 <= i < |s.candidates| && s.candidates[i].id == id && Blank(s.candidates[i].locator)
    case EmptyFingerprint(id) =>
      exists i :: 0 <= i < |s.candidates| && s.candidates[i].id == id && Blank(s.candidates[i].fingerprint)
    case InvalidScore(id) =>
      exists i :: 0 <= i < |s.candidates| && s.candidates[i].id == id
                  && (OutOfRange(s.candidates[i].relevanceScore) || OutOfRange(s.candidates[i].freshnessScore))
    case CandidateTotalMismatch =>
      var total := Tokens(s.candidates);
      s.candidateTokens != if total <= USIZE_MAX then total else USIZE_MAX
    case UnknownCandidate(id) => IsSelected(s, id) && !IsCandidate(s, id)
    case DuplicateSelection(id) =>
      exists i, j :: 0 <= i < j < |s.selections| && s.selections[i].candidateId == id == s.selections[j].candidateId
    case BadSelection(id, problem) =>
      exists k, i :: 0 <= k < |s.candidates| && 0 <= i < |s.selections| && s.candidates[k].id == id
                     && s.selections[i].candidateId == id && Problem(s.candidates[k], s.selections[i], problem)
    case DuplicateOrder(order) =>
      exists i, j :: 0 <= i < j < |s.selections| && s.selections[i].state == Included == s.selections[j].state
                     && s.selections[i].order == Some(order) == s.selections[j].order
    case MissingSelection => exists i :: 0 <= i < |s.candidates| && !IsSelected(s, s.candidates[i].id)
    case IncludedTotalMismatch =>
      var total := IncludedOnly(s.selections);
      s.includedTokens != if total <= USIZE_MAX then total else USIZE_MAX
    case OverBudget => s.tokenBudget.Some? && s.tokenBudget.value < s.includedTokens
  }

  ghost predicate FaultFree(s: Snapshot) {
    forall e :: !HasFault(s, e)
  }

  lemma SoundExactly(c: Candidate, s: Selection)
    ensures SelectionSound(c, s) <==> forall problem :: !Problem(c, s, problem)
  {
    assert SelectionSound(c, s) <==>
      && !Problem(c, s, IncludedWithReason) && !Problem(c, s, IncludedTokensExceed)
      && !Problem(c, s, IncludedWithoutOrder) && !Problem(c, s, ExcludedWithTokens)
      && !Problem(c, s, ExcludedTrimmed) && !Problem(c, s, ExcludedWithoutReason) && !Problem(c, s, ExcludedWithOrder);
  }

  // ----- without faults the snapshot is consistent

  lemma CandidateIsFine(s: Snapshot, i: nat)
    requires FaultFree(s) && i < |s.candidates|
    ensures CandidateFine(s.candidates[i])
  {
    var id := s.candidates[i].id;
    assert !HasFault(s, EmptyCandidateId) && !HasFault(s, EmptyLocator(id));
    assert !HasFault(s, EmptyFingerprint(id)) && !HasFault(s, InvalidScore(id));
  }

  lemma IdsAreDistinct(s: Snapshot)
    requires FaultFree(s)
    ensures DistinctIds(s.candidates) && DistinctSelections(s.selections)
  {
    forall i, j | 0 <= i < j < |s.candidates|
      ensures s.candidates[i].id != s.candidates[j].id
    {
      assert !HasFault(s, DuplicateCandidate(s.candidates[i].id));
    }
    forall i, j | 0 <= i < j < |s.selections|
      ensures s.selections[i].candidateId != s.selections[j].candidateId
    {
      assert !HasFault(s, DuplicateSelection(s.selections[i].candidateId));
    }
  }

  lemma SelectionIsFine(s: Snapshot, i: nat)
    requires FaultFree(s) && i < |s.selections|
    ensures SelectionFine(s.candidates, s.selections[i])
  {
    var id := s.selections[i].candidateId;
    assert !HasFault(s, UnknownCandidate(id)) && IsSelected(s, id);
    var k := Position(s.candidates, id);
    forall problem
      ensures !Problem(s.candidates[k], s.selections[i], problem)
    {
      assert !HasFault(s, BadSelection(id, problem));
    }
    SoundExactly(s.candidates[k], s.selections[i]);
  }

  lemma OrdersAreDistinct(s: Snapshot)
    requires FaultFree(s)
    ensures DistinctOrders(s.selections)
  {
    forall i, j | 0 <= i < j < |s.selections| && s.selections[i].state == Included == s.selections[j].state
      ensures s.selections[i].order != s.selections[j].order
    {
      SelectionIsFine(s, i);
      assert !HasFault(s, DuplicateOrder(s.selections[i].order.value));
    }
  }

  lemma AllAreSelected(s: Snapshot)
    requires FaultFree(s)
    ensures EveryCandidateSelected(s.candidates, s.selections)
  {
    assert !HasFault(s, MissingSelection);
    forall i | 0 <= i < |s.candidates|
      ensures Selects(s.selections, s.candidates[i].id)
    {
      assert IsSelected(s, s.candidates[i].id);
    }
  }

  lemma FaultFreeIsConsistent(s: Snapshot)
    requires FaultFree(s)
    ensures Consistent(s)
  {
    assert !HasFault(s, UnsupportedVersion) && !HasFault(s, EmptyProject) && !HasFault(s, EmptyTaskId);
    assert !HasFault(s, EmptyContextFingerprint) && !HasFault(s, OverBudget);
    assert !HasFault(s, CandidateTotalMismatch) && !HasFault(s, IncludedTotalMismatch);
    forall i | 0 <= i < |s.candidates|
      ensures CandidateFine(s.candidates[i])
    {
      CandidateIsFine(s, i);
    }
    forall i | 0 <= i < |s.selections|
      ensures SelectionFine(s.candidates, s.selections[i])
    {
      SelectionIsFine(s, i);
    }
    IdsAreDistinct(s);
    OrdersAreDistinct(s);
    AllAreSelected(s);
  }

  // ----- a consistent snapshot has no fault

  lemma ConsistentCandidates(s: Snapshot, e: ValidationError)
    requires Consistent(s)
    requires e.EmptyCandidateId? || e.DuplicateCandidate? || e.EmptyLocator? || e.EmptyFingerprint? || e.InvalidScore?
    ensures !HasFault(s, e)
  {
  }

  lemma SelectionHasNoProblem(s: Snapshot, i: nat, k: nat, problem: SelectionProblem)
    requires Consistent(s) && i < |s.selections| && k < |s.candidates|
    requires s.candidates[k].id == s.selections[i].candidateId
    ensures !Problem(s.candidates[k], s.selections[i], problem)
  {
    assert SelectionFine(s.candidates, s.selections[i]);
    var first := Position(s.candidates, s.selections[i].candidateId);
    assert first == k;
    SoundExactly(s.candidates[k], s.selections[i]);
  }

  lemma SelectionIsKnown(s: Snapshot, id: string)
    requires Consistent(s) && IsSelected(s, id)
    ensures IsCandidate(s, id)
  {
    var j :| 0 <= j < |s.selections| && s.selections[j].candidateId == id;
    assert SelectionFine(s.candidates, s.selections[j]);
    assert s.candidates[Position(s.candidates, id)].id == id;
  }

  lemma ConsistentSelections(s: Snapshot, e: ValidationError)
    requires Consistent(s) && (e.UnknownCandidate? || e.BadSelection?)
    ensures !HasFault(s, e)
  {
    if e.UnknownCandidate? {
      if IsSelected(s, e.id) {
        SelectionIsKnown(s, e.id);
      }
    } else {
      forall k, i | 0 <= k < |s.candidates| && 0 <= i < |s.selections| && s.candidates[k].id == e.id
                    && s.selections[i].candidateId == e.id
        ensures !Problem(s.candidates[k], s.selections[i], e.problem)
      {
        SelectionHasNoProblem(s, i, k, e.problem);
      }
    }
  }

  lemma ConsistentOrders(s: Snapshot, e: ValidationError)
    requires Consistent(s) && (e.DuplicateSelection? || e.DuplicateOrder?)
    ensures !HasFault(s, e)
  {
  }

  lemma ConsistentIsFaultFree(s: Snapshot, e: ValidationError)
    requires Consistent(s)
    ensures !HasFault(s, e)
  {
    match e
    case EmptyCandidateId => ConsistentCandidates(s, e);
    case DuplicateCandidate(_) => ConsistentCandidates(s, e);
    case EmptyLocator(_) => ConsistentCandidates(s, e);
    case EmptyFingerprint(_) => ConsistentCandidates(s, e);
    case InvalidScore(_) => ConsistentCandidates(s, e);
    case UnknownCandidate(_) => ConsistentSelections(s, e);
    case BadSelection(_, _) => ConsistentSelections(s, e);
    case DuplicateSelection(_) => ConsistentOrders(s, e);
    case DuplicateOrder(_) => ConsistentOrders(s, e);
    case MissingSelection =>
      forall i | 0 <= i < |s.candidates|
        ensures IsSelected(s, s.candidates[i].id)
      {
        assert Selects(s.selections, s.candidates[i].id);
      }
    case _ =>
  }

  /** A snapshot is what the validator accepts exactly when it has none of the faults. */
  lemma ConsistentExactly(s: Snapshot)
    ensures Consistent(s) <==> forall e :: !HasFault(s, e)
  {
    if Consistent(s) {
      forall e
        ensures !HasFault(s, e)
      {
        ConsistentIsFaultFree(s, e);
      }
    } else if FaultFree(s) {
      FaultFreeIsConsistent(s);
    }
  }

  /** Whatever the validator reports is a fault of the snapshot. */
  lemma ReportedFaultsAreReal(s: Snapshot, e: ValidationError)
    requires Justified(s, e)
    ensures HasFault(s, e)
  {
    match e
    case BadSelection(id, problem) =>
      var k := Position(s.candidates, id);
      var i :| 0 <= i < |s.selections| && s.selections[i].candidateId == id
        && Suffers(s.candidates[k], s.selections[i], problem);
      assert Problem(s.candidates[k], s.selections[i], problem);
    case UnknownCandidate(id) => assert IsSelected(s, id);
    case MissingSelection =>
      var i :| 0 <= i < |s.candidates| && !Selects(s.selections, s.candidates[i].id);
      assert !IsSelected(s, s.candidates[i].id);
    case _ =>
  }
}
