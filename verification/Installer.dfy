/** The language-tool installer as a state machine over its locked sections: previews
    mint single-use tokens, and any number of installs and cancellations interleave. */
module Installer {
  import opened Wrappers

  datatype Outcome = Outcome(success: bool, cancelled: bool)

  datatype Result = Rejected | CancelledResult | FailedResult | IoError | Ready

  datatype Phase =
    | Taken                       // token removed from the registry
    | Admitted                    // found no running install of the recipe
    | Installing                  // entered in the running map
    | InstallerDone(out: Outcome) // about to load the cancel flag
    | Probing
    | ProbeDone(out: Outcome)     // about to load the cancel flag
    | Promoting
    | Leaving(result: Result)     // about to remove the running entry
    | Ended(result: Result)

  datatype Preview = Preview(recipe: string, managed: bool, usable: bool)

  datatype Job = Job(token: nat, preview: Preview, phase: Phase, cancel: bool,
                     installer: Option<Outcome>, probe: Option<Outcome>)

  /** `running` maps a recipe to the job whose cancel flag is stored under it; `writes`
      lists the jobs that touched their managed destination, in order. */
  datatype State = State(
    tokens: nat,
    pending: map<nat, Preview>,
    running: map<string, nat>,
    jobs: seq<Job>,
    writes: seq<nat>)

  datatype Event =
    | MakePreview(preview: Preview)
    | TakeToken(token: nat, expired: bool)
    | CheckRunning(job: nat)
    | EnterRunning(job: nat)
    | RunInstaller(job: nat, out: Option<Outcome>)
    | LoadAfterInstall(job: nat, executable: bool)
    | RunProbe(job: nat, out: Option<Outcome>)
    | LoadAfterProbe(job: nat)
    | PromoteJob(job: nat, ok: bool)
    | LeaveRunning(job: nat)
    | CancelRecipe(recipe: string)

  function Init(): State {
    State(0, map[], map[], [], [])
  }

  predicate At(s: State, j: nat, phase: Phase) {
    j < |s.jobs| && s.jobs[j].phase == phase
  }

  function Goto(s: State, j: nat, phase: Phase): State
    requires j < |s.jobs|
  {
    s.(jobs := s.jobs[j := s.jobs[j].(phase := phase)])
  }

  /** After a run: cancelled first, then failed, then the next phase. */
  function AfterRun(job: Job, out: Outcome, onward: bool, next: Phase): Phase {
    if out.cancelled || job.cancel then Leaving(CancelledResult)
    else if !out.success || !onward then Leaving(FailedResult)
    else next
  }

  /** `joined` makes the running check and the insertion one locked section; the program
      takes the lock twice, which is `joined == false`. */
  function Step(joined: bool, s: State, e: Event): State {
    match e
    case MakePreview(preview) =>
      s.(tokens := s.tokens + 1, pending := s.pending[s.tokens := preview])
    case TakeToken(token, expired) =>
      if token !in s.pending then s
      else
        var preview := s.pending[token];
        var phase := if expired || !preview.usable then Ended(Rejected) else Taken;
        s.(pending := s.pending - {token}, jobs := s.jobs + [Job(token, preview, phase, false, None, None)])
    case CheckRunning(j) =>
      if !At(s, j, Taken) then s
      else if s.jobs[j].preview.recipe in s.running then Goto(s, j, Ended(Rejected))
      else if joined then Enter(s, j)
      else Goto(s, j, Admitted)
    case EnterRunning(j) =>
      if At(s, j, Admitted) then Enter(s, j) else s
    case RunInstaller(j, out) =>
      if !At(s, j, Installing) then s
      else if out.None? then Goto(s, j, Leaving(IoError))
      else Goto(s.(jobs := s.jobs[j := s.jobs[j].(installer := out)]), j, InstallerDone(out.value))
    case LoadAfterInstall(j, executable) =>
      if j < |s.jobs| && s.jobs[j].phase.InstallerDone? then
        Goto(s, j, AfterRun(s.jobs[j], s.jobs[j].phase.out, s.jobs[j].preview.managed ==> executable, Probing))
      else s
    case RunProbe(j, out) =>
      if !At(s, j, Probing) then s
      else if out.None? then Goto(s, j, Leaving(IoError))
      else Goto(s.(jobs := s.jobs[j := s.jobs[j].(probe := out)]), j, ProbeDone(out.value))
    case LoadAfterProbe(j) =>
      if j < |s.jobs| && s.jobs[j].phase.ProbeDone? then
        Goto(s, j, AfterRun(s.jobs[j], s.jobs[j].phase.out, true, Promoting))
      else s
    case PromoteJob(j, ok) =>
      if !At(s, j, Promoting) then s
      else if !s.jobs[j].preview.managed then Goto(s, j, Leaving(Ready))
      else Goto(s.(writes := s.writes + [j]), j, Leaving(if ok then Ready else IoError))
    case LeaveRunning(j) =>
      if j < |s.jobs| && s.jobs[j].phase.Leaving? then
        Goto(s.(running := s.running - {s.jobs[j].preview.recipe}), j, Ended(s.jobs[j].phase.result))
      else s
    case CancelRecipe(recipe) =>
      if recipe in s.running && s.running[recipe] < |s.jobs| then
        s.(jobs := s.jobs[s.running[recipe] := s.jobs[s.running[recipe]].(cancel := true)])
      else s
  }

  function Enter(s: State, j: nat): State
    requires j < |s.jobs|
  {
    Goto(s.(running := s.running[s.jobs[j].preview.recipe := j]), j, Installing)
  }

  function Run(joined: bool, events: seq<Event>): State {
    if events == [] then Init()
    else Step(joined, Run(joined, events[..|events| - 1]), events[|events| - 1])
  }

  // ----- what precedes a changed destination

  const GOOD: Option<Outcome> := Some(Outcome(true, false))

  /** How far a job has got is backed by the outcomes it has seen. */
  predicate JobOk(job: Job) {
    match job.phase
    case InstallerDone(out) => job.installer == Some(out)
    case Probing => job.installer == GOOD
    case ProbeDone(out) => job.installer == GOOD && job.probe == Some(out)
    case Promoting => job.installer == GOOD && job.probe == GOOD
    case Leaving(r) => r == Ready ==> job.installer == GOOD && job.probe == GOOD
    case Ended(r) => r == Ready ==> job.installer == GOOD && job.probe == GOOD
    case _ => true
  }

  predicate Settled(job: Job) {
    job.phase.Leaving? || job.phase.Ended?
  }

  predicate JobsOk(s: State) {
    forall j :: 0 <= j < |s.jobs| ==> JobOk(s.jobs[j])
  }

  predicate Proven(job: Job) {
    Settled(job) && job.preview.managed && job.installer == GOOD && job.probe == GOOD
  }

  predicate WritesOk(s: State) {
    forall w :: 0 <= w < |s.writes| ==> s.writes[w] < |s.jobs| && Proven(s.jobs[s.writes[w]])
  }

  predicate TokensOk(s: State) {
    && (forall token :: token in s.pending ==> token < s.tokens)
    && (forall j :: 0 <= j < |s.jobs| ==> s.jobs[j].token < s.tokens && s.jobs[j].token !in s.pending)
    && (forall i, j :: 0 <= i < j < |s.jobs| ==> s.jobs[i].token != s.jobs[j].token)
  }

  predicate Inv(s: State) {
    JobsOk(s) && WritesOk(s) && TokensOk(s)
  }

  lemma StepKeepsJob(joined: bool, s: State, e: Event, j: nat)
    requires j < |s.jobs| && JobOk(s.jobs[j])
    ensures JobOk(Step(joined, s, e).jobs[j])
  {
  }

  lemma StepKeepsJobs(joined: bool, s: State, e: Event)
    requires JobsOk(s)
    ensures JobsOk(Step(joined, s, e))
  {
    forall j | 0 <= j < |s.jobs|
      ensures JobOk(Step(joined, s, e).jobs[j])
    {
      StepKeepsJob(joined, s, e, j);
    }
  }

  lemma ProvenStays(joined: bool, s: State, e: Event, j: nat)
    requires j < |s.jobs| && Proven(s.jobs[j])
    ensures Proven(Step(joined, s, e).jobs[j])
  {
  }

  lemma StepKeepsWrites(joined: bool, s: State, e: Event)
    requires JobsOk(s) && WritesOk(s)
    ensures WritesOk(Step(joined, s, e))
  {
    var t := Step(joined, s, e);
    forall w | 0 <= w < |s.writes|
      ensures t.writes[w] == s.writes[w] < |t.jobs| && Proven(t.jobs[t.writes[w]])
    {
      ProvenStays(joined, s, e, s.writes[w]);
    }
    if e.PromoteJob? && At(s, e.job, Promoting) {
      assert JobOk(s.jobs[e.job]);
    }
  }

  /** Only previews mint tokens and only taking one moves it into a job. */
  lemma TokensElsewhere(joined: bool, s: State, e: Event)
    requires !e.MakePreview? && !e.TakeToken?
    ensures var t := Step(joined, s, e);
      && t.tokens == s.tokens && t.pending == s.pending && |t.jobs| == |s.jobs|
      && forall j :: 0 <= j < |s.jobs| ==> t.jobs[j].token == s.jobs[j].token
  {
  }

  lemma StepKeepsTokens(joined: bool, s: State, e: Event)
    requires TokensOk(s)
    ensures TokensOk(Step(joined, s, e))
  {
    if !e.MakePreview? && !e.TakeToken? {
      TokensElsewhere(joined, s, e);
    }
  }

  lemma StepKeepsInv(joined: bool, s: State, e: Event)
    requires Inv(s)
    ensures Inv(Step(joined, s, e))
  {
    StepKeepsJobs(joined, s, e);
    StepKeepsWrites(joined, s, e);
    StepKeepsTokens(joined, s, e);
  }

  lemma {:induction false} RunKeepsInv(joined: bool, events: seq<Event>)
    ensures Inv(Run(joined, events))
  {
    if events != [] {
      RunKeepsInv(joined, events[..|events| - 1]);
      StepKeepsInv(joined, Run(joined, events[..|events| - 1]), events[|events| - 1]);
    }
  }

  /** Whatever the runs and file operations do: a managed destination is touched only by
      a job whose installer and probe both succeeded, the same holds of every Ready
      result, and no two jobs ever came from the same token. */
  lemma OnlyVerifiedInstallsWrite(joined: bool, events: seq<Event>, j: nat)
    requires j < |Run(joined, events).jobs|
    ensures var s := Run(joined, events);
      && (j in s.writes || s.jobs[j].phase == Ended(Ready) ==> s.jobs[j].installer == GOOD && s.jobs[j].probe == GOOD)
      && (forall i :: 0 <= i < |s.jobs| && i != j ==> s.jobs[i].token != s.jobs[j].token)
      && s.jobs[j].token !in s.pending
  {
    RunKeepsInv(joined, events);
    var s := Run(joined, events);
    assert JobOk(s.jobs[j]);
    if j in s.writes {
      var w :| 0 <= w < |s.writes| && s.writes[w] == j;
    }
  }

  /** A cancelled job that has not yet passed the check after its probe. */
  predicate Doomed(s: State, j: nat) {
    && j < |s.jobs| && j !in s.writes
    && match s.jobs[j].phase
       case Promoting => false
       case Leaving(r) => r != Ready
       case Ended(r) => r != Ready
       case _ => s.jobs[j].cancel
  }

  lemma DoomedStays(joined: bool, s: State, e: Event, j: nat)
    requires Doomed(s, j)
    ensures Doomed(Step(joined, s, e), j)
  {
  }

  /** A cancel flag set before the check after the probe rules out, in all later states,
      a Ready result and any change of the destination by that job. */
  lemma {:induction false} CancelledNeverInstalls(joined: bool, events: seq<Event>, n: nat, j: nat)
    requires n <= |events| && j < |Run(joined, events[..n]).jobs|
    requires var job := Run(joined, events[..n]).jobs[j];
      job.cancel && !job.phase.Promoting? && !Settled(job)
    ensures var s := Run(joined, events);
      j < |s.jobs| && j !in s.writes && s.jobs[j].phase != Leaving(Ready) && s.jobs[j].phase != Ended(Ready)
  {
    RunKeepsInv(joined, events[..n]);
    assert Doomed(Run(joined, events[..n]), j);
    DoomedAlong(joined, events, n, |events|, j);
    assert events[..|events|] == events;
  }

  lemma {:induction false} DoomedAlong(joined: bool, events: seq<Event>, n: nat, m: nat, j: nat)
    requires n <= m <= |events| && Doomed(Run(joined, events[..n]), j)
    ensures Doomed(Run(joined, events[..m]), j)
  {
    if n < m {
      DoomedAlong(joined, events, n, m - 1, j);
      assert events[..m][..m - 1] == events[..m - 1];
      DoomedStays(joined, Run(joined, events[..m - 1]), events[m - 1], j);
    }
  }

  // ----- one install per recipe

  predicate Active(job: Job) {
    || job.phase.Installing? || job.phase.InstallerDone? || job.phase.Probing?
    || job.phase.ProbeDone? || job.phase.Promoting? || job.phase.Leaving?
  }

  predicate Exclusive(s: State) {
    forall i, j :: 0 <= i < j < |s.jobs| && Active(s.jobs[i]) && Active(s.jobs[j]) ==>
      s.jobs[i].preview.recipe != s.jobs[j].preview.recipe
  }

  /** An active job is the one stored under its recipe. */
  predicate Owns(s: State, j: nat)
    requires j < |s.jobs|
  {
    Active(s.jobs[j]) ==> s.jobs[j].preview.recipe in s.running && s.running[s.jobs[j].preview.recipe] == j
  }

  /** A job stored under a recipe is an active install of it. */
  predicate Backed(s: State, recipe: string) {
    recipe in s.running ==>
      && s.running[recipe] < |s.jobs|
      && Active(s.jobs[s.running[recipe]]) && s.jobs[s.running[recipe]].preview.recipe == recipe
  }

  ghost predicate Tracked(s: State) {
    && (forall j :: 0 <= j < |s.jobs| ==> Owns(s, j))
    && (forall recipe :: Backed(s, recipe))
  }

  /** The event does not enter a recipe that is running: what checking again at the
      insertion would guarantee. */
  predicate CleanEntry(s: State, e: Event) {
    e.EnterRunning? && At(s, e.job, Admitted) ==> s.jobs[e.job].preview.recipe !in s.running
  }

  lemma StepKeepsOwner(joined: bool, s: State, e: Event, j: nat)
    requires Tracked(s) && CleanEntry(s, e) && j < |Step(joined, s, e).jobs|
    ensures Owns(Step(joined, s, e), j)
  {
    if j < |s.jobs| {
      assert Owns(s, j);
    }
    if e.LeaveRunning? && e.job < |s.jobs| {
      assert Owns(s, e.job);
    }
  }

  lemma StepKeepsBacked(joined: bool, s: State, e: Event, recipe: string)
    requires Tracked(s) && CleanEntry(s, e)
    ensures Backed(Step(joined, s, e), recipe)
  {
    assert Backed(s, recipe);
    if e.LeaveRunning? && e.job < |s.jobs| {
      assert Owns(s, e.job);
    }
  }

  lemma StepKeepsTracked(joined: bool, s: State, e: Event)
    requires Tracked(s) && CleanEntry(s, e)
    ensures Tracked(Step(joined, s, e))
  {
    forall j | 0 <= j < |Step(joined, s, e).jobs|
      ensures Owns(Step(joined, s, e), j)
    {
      StepKeepsOwner(joined, s, e, j);
    }
    forall recipe
      ensures Backed(Step(joined, s, e), recipe)
    {
      StepKeepsBacked(joined, s, e, recipe);
    }
  }

  lemma TrackedIsExclusive(s: State)
    requires Tracked(s)
    ensures Exclusive(s)
  {
    forall i, j | 0 <= i < j < |s.jobs| && Active(s.jobs[i]) && Active(s.jobs[j])
      ensures s.jobs[i].preview.recipe != s.jobs[j].preview.recipe
    {
      assert Owns(s, i) && Owns(s, j);
    }
  }

  /** Entering a recipe that is running makes two active installs of it. */
  lemma UncleanEntryOverlaps(joined: bool, s: State, e: Event)
    requires Tracked(s) && !CleanEntry(s, e)
    ensures !Exclusive(Step(joined, s, e))
  {
    var recipe := s.jobs[e.job].preview.recipe;
    assert Backed(s, recipe);
    var t := Step(joined, s, e);
    assert Active(t.jobs[e.job]) && Active(t.jobs[s.running[recipe]]);
  }

  lemma RunOneMore(joined: bool, events: seq<Event>, n: nat)
    requires n < |events|
    ensures Run(joined, events[..n + 1]) == Step(joined, Run(joined, events[..n]), events[n])
  {
    assert events[..n + 1][..n] == events[..n];
  }

  predicate CleanUpTo(joined: bool, events: seq<Event>, n: nat)
    requires n <= |events|
  {
    forall i :: 0 <= i < n ==> CleanEntry(Run(joined, events[..i]), events[i])
  }

  lemma {:induction false} CleanIsTracked(joined: bool, events: seq<Event>, n: nat)
    requires n <= |events| && CleanUpTo(joined, events, n)
    ensures Tracked(Run(joined, events[..n]))
  {
    if n > 0 {
      CleanIsTracked(joined, events, n - 1);
      StepKeepsTracked(joined, Run(joined, events[..n - 1]), events[n - 1]);
      RunOneMore(joined, events, n - 1);
    }
  }

  predicate ExclusiveThroughout(joined: bool, events: seq<Event>) {
    forall n :: 0 <= n <= |events| ==> Exclusive(Run(joined, events[..n]))
  }

  /** A run never has two installs of one recipe at once exactly when no insertion meets
      a running recipe. The program does not look again when it inserts. */
  lemma ExclusiveExactlyWhenEntriesClean(joined: bool, events: seq<Event>)
    ensures ExclusiveThroughout(joined, events) <==> CleanUpTo(joined, events, |events|)
  {
    if CleanUpTo(joined, events, |events|) {
      forall n | 0 <= n <= |events|
        ensures Exclusive(Run(joined, events[..n]))
      {
        CleanIsTracked(joined, events, n);
        TrackedIsExclusive(Run(joined, events[..n]));
      }
    } else {
      var i := FirstUnclean(joined, events, |events|);
      CleanIsTracked(joined, events, i);
      UncleanEntryOverlaps(joined, Run(joined, events[..i]), events[i]);
      RunOneMore(joined, events, i);
    }
  }

  lemma {:induction false} FirstUnclean(joined: bool, events: seq<Event>, n: nat) returns (i: nat)
    requires n <= |events| && !CleanUpTo(joined, events, n)
    ensures i < n && CleanUpTo(joined, events, i) && !CleanEntry(Run(joined, events[..i]), events[i])
  {
    if CleanUpTo(joined, events, n - 1) {
      i := n - 1;
    } else {
      i := FirstUnclean(joined, events, n - 1);
    }
  }

  lemma {:induction false} NeverAdmitted(events: seq<Event>)
    ensures forall j :: 0 <= j < |Run(true, events).jobs| ==> Run(true, events).jobs[j].phase != Admitted
  {
    if events != [] {
      NeverAdmitted(events[..|events| - 1]);
    }
  }

  lemma JoinedIsClean(events: seq<Event>)
    ensures CleanUpTo(true, events, |events|)
  {
    forall i | 0 <= i < |events|
      ensures CleanEntry(Run(true, events[..i]), events[i])
    {
      NeverAdmitted(events[..i]);
    }
  }

  lemma JoinedIsExclusive(events: seq<Event>)
    ensures ExclusiveThroughout(true, events)
  {
    JoinedIsClean(events);
    ExclusiveExactlyWhenEntriesClean(true, events);
  }

  /** Both previews pass the running check before either is entered. */
  function Race(p: Preview): seq<Event> {
    [MakePreview(p), MakePreview(p), TakeToken(0, false), TakeToken(1, false),
     CheckRunning(0), CheckRunning(1), EnterRunning(0), EnterRunning(1)]
  }

  function Raced(p: Preview, running: map<string, nat>, a: Phase, b: Phase): State {
    State(2, map[], running, [Job(0, p, a, false, None, None), Job(1, p, b, false, None, None)], [])
  }

  lemma RacePrepares(p: Preview)
    requires p.usable
    ensures Run(false, Race(p)[..4]) == Raced(p, map[], Taken, Taken)
  {
    var r := Race(p);
    assert r[..0] == [];
    RunOneMore(false, r, 0);
    assert Run(false, r[..1]) == State(1, map[0 := p], map[], [], []);
    RunOneMore(false, r, 1);
    assert Run(false, r[..2]) == State(2, map[0 := p, 1 := p], map[], [], []);
    RunOneMore(false, r, 2);
    assert Run(false, r[..3]) == State(2, map[1 := p], map[], [Job(0, p, Taken, false, None, None)], []);
    RunOneMore(false, r, 3);
    assert map[1 := p] - {1} == map[];
  }

  lemma RaceChecks(p: Preview)
    requires p.usable
    ensures Run(false, Race(p)[..6]) == Raced(p, map[], Admitted, Admitted)
  {
    var r := Race(p);
    RacePrepares(p);
    RunOneMore(false, r, 4);
    assert Step(false, Raced(p, map[], Taken, Taken), CheckRunning(0)) == Raced(p, map[], Admitted, Taken);
    RunOneMore(false, r, 5);
  }

  lemma RaceEnters(p: Preview)
    requires p.usable
    ensures Run(false, Race(p)) == Raced(p, map[p.recipe := 1], Installing, Installing)
  {
    var r := Race(p);
    RaceChecks(p);
    RunOneMore(false, r, 6);
    assert Step(false, Raced(p, map[], Admitted, Admitted), EnterRunning(0)) ==
      Raced(p, map[p.recipe := 0], Installing, Admitted);
    RunOneMore(false, r, 7);
    assert map[p.recipe := 0][p.recipe := 1] == map[p.recipe := 1];
    assert r[..8] == r;
  }

  /** With the check and the insertion in separate locked sections two installs of one
      recipe run at once, and cancelling the recipe then misses the first of them. */
  lemma SplitCheckRaces(p: Preview)
    requires p.usable
    ensures var s := Run(false, Race(p));
      && !Exclusive(s)
      && s == Raced(p, map[p.recipe := 1], Installing, Installing)
      && !Step(false, s, CancelRecipe(p.recipe)).jobs[0].cancel
  {
    RaceEnters(p);
    var s := Raced(p, map[p.recipe := 1], Installing, Installing);
    assert Active(s.jobs[0]) && Active(s.jobs[1]) && s.jobs[0].preview.recipe == s.jobs[1].preview.recipe;
  }

  /** One install per recipe holds on every run exactly when check and insertion are one
      step. */
  lemma ExclusiveExactlyWhenJoined(joined: bool)
    ensures (forall events :: ExclusiveThroughout(joined, events)) <==> joined
  {
    if joined {
      forall events
        ensures ExclusiveThroughout(joined, events)
      {
        JoinedIsExclusive(events);
      }
    } else {
      var p := Preview("rust-analyzer", false, true);
      SplitCheckRaces(p);
      assert Race(p)[..8] == Race(p);
      assert !ExclusiveThroughout(joined, Race(p));
    }
  }

  // ----- cancelling reaches every running install

  /** Every active install is the one whose flag its recipe's entry holds. */
  predicate OwnedThroughout(joined: bool, events: seq<Event>) {
    forall n :: 0 <= n <= |events| ==>
      forall j :: 0 <= j < |Run(joined, events[..n]).jobs| ==> Owns(Run(joined, events[..n]), j)
  }

  lemma UncleanEntryDisowns(joined: bool, s: State, e: Event)
    requires Tracked(s) && !CleanEntry(s, e)
    ensures var recipe := s.jobs[e.job].preview.recipe;
      s.running[recipe] < |Step(joined, s, e).jobs| && !Owns(Step(joined, s, e), s.running[recipe])
  {
    assert Backed(s, s.jobs[e.job].preview.recipe);
  }

  /** A run keeps every active install under its recipe's entry, where cancelling finds it,
      exactly when no insertion meets a running recipe. */
  lemma OwnedExactlyWhenEntriesClean(joined: bool, events: seq<Event>)
    ensures OwnedThroughout(joined, events) <==> CleanUpTo(joined, events, |events|)
  {
    if CleanUpTo(joined, events, |events|) {
      forall n | 0 <= n <= |events|
        ensures Tracked(Run(joined, events[..n]))
      {
        CleanIsTracked(joined, events, n);
      }
    } else {
      var i := FirstUnclean(joined, events, |events|);
      var s := Run(joined, events[..i]);
      CleanIsTracked(joined, events, i);
      UncleanEntryDisowns(joined, s, events[i]);
      RunOneMore(joined, events, i);
      assert !Owns(Run(joined, events[..i + 1]), s.running[s.jobs[events[i].job].preview.recipe]);
    }
  }

  /** Cancelling its recipe now sets the flag of install `j`, if it is active. */
  predicate CancelReaches(joined: bool, s: State, j: nat)
    requires j < |s.jobs|
  {
    Active(s.jobs[j]) ==>
      var t := Step(joined, s, CancelRecipe(s.jobs[j].preview.recipe));
      j < |t.jobs| && t.jobs[j].cancel
  }

  predicate ReachesThroughout(joined: bool, events: seq<Event>) {
    forall n :: 0 <= n <= |events| ==>
      forall j :: 0 <= j < |Run(joined, events[..n]).jobs| ==> CancelReaches(joined, Run(joined, events[..n]), j)
  }

  lemma JoinedReaches(events: seq<Event>)
    ensures ReachesThroughout(true, events)
  {
    JoinedIsClean(events);
    OwnedExactlyWhenEntriesClean(true, events);
    forall n, j | 0 <= n <= |events| && 0 <= j < |Run(true, events[..n]).jobs|
      ensures CancelReaches(true, Run(true, events[..n]), j)
    {
      assert Owns(Run(true, events[..n]), j);
    }
  }

  /** Cancelling a recipe reaches every running install of it, on every run, exactly when
      check and insertion are one step. */
  lemma CancelReachesExactlyWhenJoined(joined: bool)
    ensures (forall events :: ReachesThroughout(joined, events)) <==> joined
  {
    if joined {
      forall events
        ensures ReachesThroughout(joined, events)
      {
        JoinedReaches(events);
      }
    } else {
      var p := Preview("rust-analyzer", false, true);
      SplitCheckRaces(p);
      assert Race(p)[..8] == Race(p);
      assert !CancelReaches(joined, Run(joined, Race(p)[..8]), 0);
      assert !ReachesThroughout(joined, Race(p));
    }
  }

  // ----- the service object whose locked sections are the registry steps

  class InstallService {
    var tokens: nat
    var pending: map<nat, Preview>
    var running: map<string, nat>
    var jobs: seq<Job>
    ghost var writes: seq<nat>

    ghost function View(): State
      reads this
    {
      State(tokens, pending, running, jobs, writes)
    }

    constructor ()
      ensures View() == Init()
    {
      tokens, pending, running, jobs, writes := 0, map[], map[], [], [];
    }

    method PreviewInstall(preview: Preview) returns (token: nat)
      modifies this
      ensures token == old(tokens) && View() == Step(false, old(View()), MakePreview(preview))
    {
      token := tokens;
      tokens := tokens + 1;
      pending := pending[token := preview];
    }

    /** Consumes the token; `None` means it was never issued or already used. */
    method TakeToken(token: nat, expired: bool) returns (job: Option<nat>)
      modifies this
      ensures View() == Step(false, old(View()), Event.TakeToken(token, expired))
      ensures job == if token in old(pending) then Some(|old(jobs)|) else None
      ensures token !in pending
    {
      if token !in pending {
        return None;
      }
      var preview := pending[token];
      pending := pending - {token};
      job := Some(|jobs|);
      var phase := if expired || !preview.usable then Ended(Rejected) else Taken;
      jobs := jobs + [Job(token, preview, phase, false, None, None)];
    }

    method CheckRunning(job: nat) returns (admitted: bool)
      requires job < |jobs| && jobs[job].phase == Taken
      modifies this
      ensures View() == Step(false, old(View()), Event.CheckRunning(job))
      ensures admitted <==> old(jobs[job].preview.recipe) !in old(running)
    {
      admitted := jobs[job].preview.recipe !in running;
      jobs := jobs[job := jobs[job].(phase := if admitted then Admitted else Ended(Rejected))];
    }

    method EnterRunning(job: nat)
      requires job < |jobs| && jobs[job].phase == Admitted
      modifies this
      ensures View() == Step(false, old(View()), Event.EnterRunning(job))
    {
      running := running[jobs[job].preview.recipe := job];
      jobs := jobs[job := jobs[job].(phase := Installing)];
    }

    method LeaveRunning(job: nat)
      requires job < |jobs| && jobs[job].phase.Leaving?
      modifies this
      ensures View() == Step(false, old(View()), Event.LeaveRunning(job))
    {
      running := running - {jobs[job].preview.recipe};
      jobs := jobs[job := jobs[job].(phase := Ended(jobs[job].phase.result))];
    }

    method Cancel(recipe: string) returns (found: bool)
      requires forall r :: r in running ==> running[r] < |jobs|
      modifies this
      ensures View() == Step(false, old(View()), CancelRecipe(recipe))
      ensures found <==> recipe in running
    {
      if recipe !in running {
        return false;
      }
      jobs := jobs[running[recipe] := jobs[running[recipe]].(cancel := true)];
      return true;
    }
  }
}
