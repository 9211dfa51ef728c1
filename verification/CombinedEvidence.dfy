/** What combined evidence claims, in terms of its contributors. */
module CombinedEvidence {
  import opened Wrappers
  import opened Text
  import opened Attribution

  predicate Has(cs: seq<Evidence>, strength: Strength) {
    exists i :: 0 <= i < |cs| && cs[i].strength == strength
  }

  predicate Only(cs: seq<Evidence>, allowed: set<Strength>) {
    forall i :: 0 <= i < |cs| ==> cs[i].strength in allowed
  }

  /** All contributors name this baseline commit, which is not blank. */
  predicate OneBaseline(cs: seq<Evidence>, baseline: string) {
    && cs != [] && !Blank(baseline)
    && forall i :: 0 <= i < |cs| ==> cs[i].baseline.Some? && Trim(cs[i].baseline.value) == baseline
  }

  lemma AnyIsSome(cs: seq<Evidence>, strength: Strength)
    ensures Any(cs, strength) <==> Has(cs, strength)
    ensures All(cs, strength) <==> Only(cs, {strength})
  {
  }

  lemma BaselineIs(cs: seq<Evidence>, baseline: string)
    ensures CommonBaseline(cs) == Some(baseline) <==> OneBaseline(cs, baseline)
  {
    if cs != [] {
      CommonBaselineMeans(cs, baseline);
      assert cs[0] in cs;
      if CommonBaseline(cs) == Some(baseline) {
        TrimmedEmptyIsBlank(cs[0].baseline.value);
        TrimIsStable(cs[0].baseline.value);
        TrimmedEmptyIsBlank(baseline);
      }
    }
  }

  lemma ExactMeans(cs: seq<Evidence>, strength: Strength)
    requires IsExact(strength)
    ensures Aggregate(cs).strength == strength <==> Only(cs, {strength}) && exists b :: OneBaseline(cs, b)
  {
    AnyIsSome(cs, strength);
    if Aggregate(cs).strength == strength {
      var b := Aggregate(cs).baseline;
      ExactClaims(cs, strength, if b.Some? then b.value else "");
      CommonBaselineMeans(cs, b.value);
      BaselineIs(cs, b.value);
    }
    if b :| OneBaseline(cs, b) {
      BaselineIs(cs, b);
      CommonBaselineMeans(cs, b);
      ExactClaims(cs, strength, b);
    }
  }

  lemma InexactMeans(cs: seq<Evidence>)
    requires cs != []
    ensures var strength := Aggregate(cs).strength;
      && (strength == LegacyUnknown <==> Any(cs, LegacyUnknown))
      && (strength == Manual <==> All(cs, Manual))
      && (strength == DerivedPrePost <==>
            Any(cs, DerivedPrePost) && !Any(cs, LegacyUnknown) && !Any(cs, Unattributed) && !Any(cs, Manual))
  {
    assert cs[0] in cs;
  }

  lemma OnlyAutomated(cs: seq<Evidence>)
    ensures Only(cs, {DerivedPrePost, ExactIsolated, ExactCleanWorkspace}) <==>
      !Any(cs, LegacyUnknown) && !Any(cs, Unattributed) && !Any(cs, Manual)
  {
    forall i | 0 <= i < |cs|
      ensures cs[i].strength in {DerivedPrePost, ExactIsolated, ExactCleanWorkspace} <==>
        cs[i].strength != LegacyUnknown && cs[i].strength != Unattributed && cs[i].strength != Manual
    {
      assert cs[i] in cs;
    }
  }

  /** The strength claimed for any contributors. Manual and automated work together, or exact
      work by different mechanisms or on different baselines, is attributed to nobody. */
  lemma StrengthMeans(cs: seq<Evidence>)
    ensures var strength := Aggregate(cs).strength;
      && (strength == LegacyUnknown <==> cs == [] || Has(cs, LegacyUnknown))
      && (strength == Manual <==> cs != [] && Only(cs, {Manual}))
      && (strength == DerivedPrePost <==>
            Has(cs, DerivedPrePost) && Only(cs, {DerivedPrePost, ExactIsolated, ExactCleanWorkspace}))
      && (strength == ExactIsolated <==> Only(cs, {ExactIsolated}) && exists b :: OneBaseline(cs, b))
      && (strength == ExactCleanWorkspace <==> Only(cs, {ExactCleanWorkspace}) && exists b :: OneBaseline(cs, b))
  {
    ExactMeans(cs, ExactIsolated);
    ExactMeans(cs, ExactCleanWorkspace);
    if cs != [] {
      InexactMeans(cs);
      OnlyAutomated(cs);
      AnyIsSome(cs, LegacyUnknown);
      AnyIsSome(cs, Manual);
      AnyIsSome(cs, DerivedPrePost);
    }
  }

  /** The workspace is named only for a single exact contributor. The baseline is the one all
      contributors share, and is named for exact and derived work, also when the exact
      mechanisms differ. */
  lemma NamesMean(cs: seq<Evidence>, baseline: string)
    ensures var e := Aggregate(cs);
      && e.workspaceId == (if IsExact(e.strength) && |cs| == 1 then cs[0].workspaceId else None)
      && (e.baseline == Some(baseline) <==>
            && OneBaseline(cs, baseline)
            && Only(cs, {DerivedPrePost, ExactIsolated, ExactCleanWorkspace}))
  {
    BaselineIs(cs, baseline);
    OnlyAutomated(cs);
  }
}
