/** Who produced a change: classifying one step's evidence and combining several. */
module Attribution {
  import opened Wrappers
  import opened Text
  import opened Sorting

  datatype Strength = ExactIsolated | ExactCleanWorkspace | DerivedPrePost | Manual | Unattributed | LegacyUnknown

  /** The explanatory reason text is omitted. */
  datatype Evidence = Evidence(strength: Strength, workspaceId: Option<string>, baseline: Option<string>)

  datatype Worktree = Worktree(workspaceId: string, runId: string, stepId: string, baseCommit: string)

  function Trimmed(s: Option<string>): Option<string> {
    match s
    case None => None
    case Some(v) => Some(Trim(v))
  }

  function ClassifyStep(runId: string, stepId: string, manual: bool, complete: bool,
                        workspace: Option<Worktree>): Evidence {
    if manual then Evidence(Manual, None, None)
    else if !complete || workspace.None? then Evidence(Unattributed, None, None)
    else
      var w := workspace.value;
      if w.runId != runId || w.stepId != stepId then Evidence(Unattributed, None, None)
      else if Trim(w.workspaceId) == [] then Evidence(Unattributed, None, None)
      else if Trim(w.baseCommit) == [] then Evidence(Unattributed, Some(Trim(w.workspaceId)), None)
      else Evidence(ExactIsolated, Some(Trim(w.workspaceId)), Some(Trim(w.baseCommit)))
  }

  predicate Any(cs: seq<Evidence>, strength: Strength) {
    exists c :: c in cs && c.strength == strength
  }

  predicate All(cs: seq<Evidence>, strength: Strength) {
    forall c :: c in cs ==> c.strength == strength
  }

  predicate IsExact(strength: Strength) {
    strength.ExactIsolated? || strength.ExactCleanWorkspace?
  }

  predicate AllExact(cs: seq<Evidence>) {
    forall c :: c in cs ==> IsExact(c.strength)
  }

  function CommonBaseline(cs: seq<Evidence>): Option<string> {
    if cs == [] || cs[0].baseline.None? then None
    else
      var baseline := Trim(cs[0].baseline.value);
      if baseline != [] && forall c :: c in cs ==> Trimmed(c.baseline) == Some(baseline) then Some(baseline) else None
  }

  function Aggregate(cs: seq<Evidence>): Evidence {
    if cs == [] || Any(cs, LegacyUnknown) then Evidence(LegacyUnknown, None, None)
    else if Any(cs, Unattributed) then Evidence(Unattributed, None, None)
    else if Any(cs, Manual) then Evidence(if All(cs, Manual) then Manual else Unattributed, None, None)
    else if Any(cs, DerivedPrePost) then Evidence(DerivedPrePost, None, CommonBaseline(cs))
    else if AllExact(cs) then
      var baseline := CommonBaseline(cs);
      var workspaceId := if |cs| == 1 then cs[0].workspaceId else None;
      if baseline.None? then Evidence(Unattributed, None, None)
      else if All(cs, ExactIsolated) then Evidence(ExactIsolated, workspaceId, baseline)
      else if All(cs, ExactCleanWorkspace) then Evidence(ExactCleanWorkspace, workspaceId, baseline)
      else Evidence(Unattributed, None, baseline)
    else Evidence(Unattributed, None, None)
  }

  /** Every contributor names the same non-empty baseline commit. */
  predicate SharesBaseline(cs: seq<Evidence>, baseline: string) {
    baseline != [] && forall c :: c in cs ==> Trimmed(c.baseline) == Some(baseline)
  }

  lemma CommonBaselineMeans(cs: seq<Evidence>, baseline: string)
    requires cs != []
    ensures CommonBaseline(cs) == Some(baseline) <==> SharesBaseline(cs, baseline)
  {
    assert cs[0] in cs;
  }

  /** An exact claim is made exactly when every contributor makes that same claim on one
      shared baseline; in particular different mechanisms or baselines never combine. */
  lemma ExactClaims(cs: seq<Evidence>, strength: Strength, baseline: string)
    requires IsExact(strength)
    ensures Aggregate(cs).strength == strength && Aggregate(cs).baseline == Some(baseline) <==>
      cs != [] && All(cs, strength) && SharesBaseline(cs, baseline)
    ensures Aggregate(cs).strength == strength ==> Aggregate(cs).baseline.Some?
  {
    if cs != [] {
      assert cs[0] in cs;
      CommonBaselineMeans(cs, baseline);
      assert All(cs, strength) ==> forall other :: other != strength ==> !Any(cs, other);
    }
  }

  /** Strength of proof, weakest first. */
  function Rank(strength: Strength): nat {
    match strength
    case LegacyUnknown => 0
    case Unattributed => 1
    case Manual => 2
    case DerivedPrePost => 2
    case ExactCleanWorkspace => 3
    case ExactIsolated => 3
  }

  /** Combining never claims more than any contributor, and claims what they all claim
      whenever they agree on something that needs no shared baseline. */
  lemma WeakestProofWins(cs: seq<Evidence>, c: Evidence)
    requires c in cs
    ensures Rank(Aggregate(cs).strength) <= Rank(c.strength)
    ensures All(cs, c.strength) && !IsExact(c.strength) ==> Aggregate(cs).strength == c.strength
  {
    match c.strength
    case LegacyUnknown => assert Any(cs, LegacyUnknown);
    case Unattributed => assert Any(cs, Unattributed);
    case Manual => assert Any(cs, Manual);
    case DerivedPrePost => assert Any(cs, DerivedPrePost);
    case ExactCleanWorkspace => assert !All(cs, Manual);
    case ExactIsolated => assert !All(cs, Manual);
  }

  lemma SameMembers(a: seq<Evidence>, b: seq<Evidence>)
    requires multiset(a) == multiset(b)
    ensures |a| == |b|
    ensures forall c :: c in a <==> c in b
  {
    SameSize(a, b);
    forall c
      ensures c in a <==> c in b
    {
      InMultiset(c, a);
      InMultiset(c, b);
    }
  }

  lemma BaselineIgnoresOrder(a: seq<Evidence>, b: seq<Evidence>)
    requires a != [] && b != [] && forall c :: c in a <==> c in b
    ensures CommonBaseline(a) == CommonBaseline(b)
  {
    if CommonBaseline(a).Some? {
      CommonBaselineMeans(a, CommonBaseline(a).value);
      CommonBaselineMeans(b, CommonBaseline(a).value);
    } else if CommonBaseline(b).Some? {
      CommonBaselineMeans(a, CommonBaseline(b).value);
      CommonBaselineMeans(b, CommonBaseline(b).value);
    }
  }

  /** The two lists answer every question about strengths alike. */
  predicate SameQuantifiers(a: seq<Evidence>, b: seq<Evidence>) {
    && (forall s :: Any(a, s) == Any(b, s))
    && (forall s :: All(a, s) == All(b, s))
    && AllExact(a) == AllExact(b)
  }

  lemma QuantifiersIgnoreOrder(a: seq<Evidence>, b: seq<Evidence>)
    requires forall c :: c in a <==> c in b
    ensures SameQuantifiers(a, b)
  {
    forall s
      ensures Any(a, s) == Any(b, s)
    {
    }
  }

  lemma SingletonsAgree(a: seq<Evidence>, b: seq<Evidence>)
    requires |a| == |b| == 1 && forall c :: c in a <==> c in b
    ensures a[0] == b[0]
  {
    assert a[0] in b;
  }

  lemma SameShape(a: seq<Evidence>, b: seq<Evidence>)
    requires a != [] && b != [] && |a| == |b| && CommonBaseline(a) == CommonBaseline(b)
    requires |a| == 1 ==> a[0] == b[0]
    requires SameQuantifiers(a, b)
    ensures Aggregate(a) == Aggregate(b)
  {
  }

  /** The order in which contributors are listed does not matter. */
  lemma AggregateIgnoresOrder(a: seq<Evidence>, b: seq<Evidence>)
    requires multiset(a) == multiset(b)
    ensures Aggregate(a) == Aggregate(b)
  {
    SameMembers(a, b);
    if a != [] {
      assert b != [];
      BaselineIgnoresOrder(a, b);
      QuantifiersIgnoreOrder(a, b);
      if |a| == 1 {
        SingletonsAgree(a, b);
      }
      SameShape(a, b);
    } else {
      assert b == [];
    }
  }

  /** A step is exact exactly on complete evidence from a worktree of that run and step
      whose identity and baseline are present. */
  lemma ClassifiedExact(runId: string, stepId: string, manual: bool, complete: bool, workspace: Option<Worktree>)
    ensures IsExact(ClassifyStep(runId, stepId, manual, complete, workspace).strength) <==>
      && !manual && complete && workspace.Some?
      && workspace.value.runId == runId && workspace.value.stepId == stepId
      && !Blank(workspace.value.workspaceId) && !Blank(workspace.value.baseCommit)
    ensures var e := ClassifyStep(runId, stepId, manual, complete, workspace);
      IsExact(e.strength) ==> Aggregate([e]) == e
  {
    if workspace.Some? {
      TrimmedEmptyIsBlank(workspace.value.workspaceId);
      TrimmedEmptyIsBlank(workspace.value.baseCommit);
      TrimIsStable(workspace.value.baseCommit);
    }
    var e := ClassifyStep(runId, stepId, manual, complete, workspace);
    if IsExact(e.strength) {
      assert All([e], ExactIsolated) && !Any([e], LegacyUnknown) && !Any([e], Unattributed);
      assert !Any([e], Manual) && !Any([e], DerivedPrePost);
      assert SharesBaseline([e], e.baseline.value);
      CommonBaselineMeans([e], e.baseline.value);
    }
  }

  /** What a step's evidence names: the trimmed workspace id and base commit of its worktree, as
      far as the worktree is its own and has them. */
  lemma ClassifiedNames(runId: string, stepId: string, manual: bool, complete: bool, w: Worktree)
    ensures var e := ClassifyStep(runId, stepId, manual, complete, Some(w));
      var own := !manual && complete && w.runId == runId && w.stepId == stepId && !Blank(w.workspaceId);
      && (e.strength == Manual <==> manual)
      && (own ==> e.workspaceId == Some(Trim(w.workspaceId)))
      && (own && !Blank(w.baseCommit) ==> e.strength == ExactIsolated && e.baseline == Some(Trim(w.baseCommit)))
      && (!own ==> e.workspaceId == None && e.baseline == None)
      && (Blank(w.baseCommit) ==> e.baseline == None)
      && (!manual && !(own && !Blank(w.baseCommit)) ==> e.strength == Unattributed)
  {
    TrimmedEmptyIsBlank(w.workspaceId);
    TrimmedEmptyIsBlank(w.baseCommit);
  }

  lemma ClassifiedWithoutWorktree(runId: string, stepId: string, manual: bool, complete: bool)
    ensures ClassifyStep(runId, stepId, manual, complete, None) ==
      Evidence(if manual then Manual else Unattributed, None, None)
  {
  }
}
