/** One install from its first command to its result, and its place among the steps of the
    install service. */
module Execution {
  import opened Wrappers
  import opened Promotion
  import Installer

  /** What one execution meets: whether its directories could be prepared, the two command
      runs, the two loads of the cancel flag, and whether the expected executable was created. */
  datatype Script = Script(
    prepared: bool,
    installer: Option<Installer.Outcome>,
    flagAfterInstall: bool,
    executable: bool,
    probe: Option<Installer.Outcome>,
    flagAfterProbe: bool,
    faults: Faults)

  predicate Verified(managed: bool, x: Script) {
    && x.prepared
    && x.installer == Installer.GOOD && !x.flagAfterInstall
    && (managed ==> x.executable)
    && x.probe == Installer.GOOD && !x.flagAfterProbe
  }

  /** A cancellation is noticed after the installer, or after the probe of an install
      that got that far. */
  predicate CancelSeen(managed: bool, x: Script) {
    && x.prepared && x.installer.Some?
    && (if x.installer.value.cancelled || x.flagAfterInstall then true
        else x.installer.value.success && (managed ==> x.executable)
             && x.probe.Some? && (x.probe.value.cancelled || x.flagAfterProbe))
  }

  /** Some command, or preparing for the first, could not be carried out at all. */
  predicate CouldNotRun(managed: bool, x: Script) {
    || !x.prepared || x.installer.None?
    || (!x.installer.value.cancelled && !x.flagAfterInstall && x.installer.value.success
        && (managed ==> x.executable) && x.probe.None?)
  }

  /** The sequence of checks before promotion. `staged` is the tree the installer leaves
      in the staging directory of a managed tool. */
  method ExecutePending(tool: ToolDirectory, managed: bool, staged: Tree, x: Script) returns (r: Installer.Result)
    modifies tool
    ensures !(managed && Verified(managed, x)) ==>
      tool.destination == old(tool.destination) && tool.backup == old(tool.backup)
    ensures r == Installer.Ready ==> Verified(managed, x)
    ensures r == Installer.Ready && managed ==> tool.destination == Some(staged)
    ensures r == Installer.CancelledResult <==> CancelSeen(managed, x)
    ensures r == Installer.CancelledResult || r == Installer.FailedResult ==> tool.staging == None
    ensures !Verified(managed, x) ==> (r == Installer.IoError <==> CouldNotRun(managed, x))
    ensures Verified(managed, x) && !managed ==> r == Installer.Ready
    ensures Verified(managed, x) && managed ==>
      var (after, ok) := Promote(Disk(Some(staged), old(tool.destination), old(tool.backup)), x.faults);
      tool.View() == after && r == if ok then Installer.Ready else Installer.IoError
    ensures OldOrNew(Disk(Some(staged), old(tool.destination), old(tool.backup)), tool.View())
    ensures r == ResultOf(managed, x, Promote(Disk(Some(staged), old(tool.destination), old(tool.backup)), x.faults).1)
  {
    if !x.prepared || x.installer.None? {
      return Installer.IoError;
    }
    if managed {
      tool.staging := Some(staged);
    }
    if x.installer.value.cancelled || x.flagAfterInstall {
      tool.staging := None;
      return Installer.CancelledResult;
    }
    if !x.installer.value.success || (managed && !x.executable) {
      tool.staging := None;
      return Installer.FailedResult;
    }
    if x.probe.None? {
      return Installer.IoError;
    }
    if x.probe.value.cancelled || x.flagAfterProbe {
      tool.staging := None;
      return Installer.CancelledResult;
    }
    if !x.probe.value.success {
      tool.staging := None;
      return Installer.FailedResult;
    }
    if managed {
      var ok := tool.PromoteDirectory(x.faults);
      if !ok {
        return Installer.IoError;
      }
    }
    return Installer.Ready;
  }

  /** The result by what was met; `promoted` is the outcome of the promotion, if it is reached. */
  function ResultOf(managed: bool, x: Script, promoted: bool): Installer.Result {
    if CancelSeen(managed, x) then Installer.CancelledResult
    else if Verified(managed, x) then (if managed && !promoted then Installer.IoError else Installer.Ready)
    else if CouldNotRun(managed, x) then Installer.IoError
    else Installer.FailedResult
  }

  // ----- the execution as steps of the service

  function RunFrom(joined: bool, s: Installer.State, events: seq<Installer.Event>): Installer.State
    decreases |events|
  {
    if events == [] then s else RunFrom(joined, Installer.Step(joined, s, events[0]), events[1..])
  }

  function Cancels(flag: bool, recipe: string): seq<Installer.Event> {
    if flag then [Installer.CancelRecipe(recipe)] else []
  }

  function FirstHalf(j: nat, recipe: string, x: Script): seq<Installer.Event> {
    [Installer.RunInstaller(j, if x.prepared then x.installer else None)]
    + Cancels(x.flagAfterInstall, recipe) + [Installer.LoadAfterInstall(j, x.executable)]
  }

  function SecondHalf(j: nat, recipe: string, x: Script, promoted: bool): seq<Installer.Event> {
    [Installer.RunProbe(j, x.probe)]
    + Cancels(x.flagAfterProbe, recipe) + [Installer.LoadAfterProbe(j), Installer.PromoteJob(j, promoted)]
  }

  /** The job runs, uncancelled so far, and its flag is the one stored under its recipe. */
  predicate Installs(s: Installer.State, j: nat, phase: Installer.Phase) {
    && Installer.At(s, j, phase) && !s.jobs[j].cancel
    && s.jobs[j].preview.recipe in s.running && s.running[s.jobs[j].preview.recipe] == j
  }

  lemma RunThree(joined: bool, s: Installer.State, a: Installer.Event, flag: bool, recipe: string, b: Installer.Event)
    ensures RunFrom(joined, s, [a] + Cancels(flag, recipe) + [b]) ==
      var t := Installer.Step(joined, s, a);
      Installer.Step(joined, if flag then Installer.Step(joined, t, Installer.CancelRecipe(recipe)) else t, b)
  {
    var t := Installer.Step(joined, s, a);
    var all := [a] + Cancels(flag, recipe) + [b];
    if flag {
      var u := Installer.Step(joined, t, Installer.CancelRecipe(recipe));
      assert all[1..] == [Installer.CancelRecipe(recipe), b] && all[1..][1..] == [b];
      assert RunFrom(joined, u, [b]) == Installer.Step(joined, u, b);
    } else {
      assert all[1..] == [b];
      assert RunFrom(joined, t, [b]) == Installer.Step(joined, t, b);
    }
  }

  lemma {:induction false} RunOn(joined: bool, s: Installer.State, a: seq<Installer.Event>, b: seq<Installer.Event>)
    ensures RunFrom(joined, s, a + b) == RunFrom(joined, RunFrom(joined, s, a), b)
    decreases |a|
  {
    if a == [] {
      assert a + b == b;
    } else {
      assert (a + b)[1..] == a[1..] + b;
      RunOn(joined, Installer.Step(joined, s, a[0]), a[1..], b);
    }
  }

  /** The first half ends with the job leaving, or about to run its probe. */
  lemma FirstHalfRuns(joined: bool, s: Installer.State, j: nat, x: Script)
    requires Installs(s, j, Installer.Installing)
    ensures var job := s.jobs[j];
      var t := RunFrom(joined, s, FirstHalf(j, job.preview.recipe, x));
      var managed := job.preview.managed;
      && j < |t.jobs| && t.jobs[j].preview == job.preview && t.writes == s.writes
      && (if !x.prepared || x.installer.None? then t.jobs[j].phase == Installer.Leaving(Installer.IoError)
          else if x.installer.value.cancelled || x.flagAfterInstall then
            t.jobs[j].phase == Installer.Leaving(Installer.CancelledResult)
          else if !x.installer.value.success || (managed && !x.executable) then
            t.jobs[j].phase == Installer.Leaving(Installer.FailedResult)
          else Installs(t, j, Installer.Probing))
  {
    var recipe := s.jobs[j].preview.recipe;
    RunThree(joined, s, Installer.RunInstaller(j, if x.prepared then x.installer else None), x.flagAfterInstall, recipe,
             Installer.LoadAfterInstall(j, x.executable));
  }

  lemma SecondHalfSplits(joined: bool, s: Installer.State, j: nat, recipe: string, x: Script, promoted: bool)
    ensures var t := Installer.Step(joined, s, Installer.RunProbe(j, x.probe));
      var u := if x.flagAfterProbe then Installer.Step(joined, t, Installer.CancelRecipe(recipe)) else t;
      RunFrom(joined, s, SecondHalf(j, recipe, x, promoted)) ==
        Installer.Step(joined, Installer.Step(joined, u, Installer.LoadAfterProbe(j)),
                       Installer.PromoteJob(j, promoted))
  {
    var probing := [Installer.RunProbe(j, x.probe)] + Cancels(x.flagAfterProbe, recipe) + [Installer.LoadAfterProbe(j)];
    var last := [Installer.PromoteJob(j, promoted)];
    var u := RunFrom(joined, s, probing);
    RunThree(joined, s, Installer.RunProbe(j, x.probe), x.flagAfterProbe, recipe, Installer.LoadAfterProbe(j));
    assert SecondHalf(j, recipe, x, promoted) == probing + last;
    RunOn(joined, s, probing, last);
    assert RunFrom(joined, u, last) == Installer.Step(joined, u, last[0]);
  }

  lemma SecondHalfRuns(joined: bool, s: Installer.State, j: nat, x: Script, promoted: bool)
    requires Installs(s, j, Installer.Probing)
    ensures var job := s.jobs[j];
      var t := RunFrom(joined, s, SecondHalf(j, job.preview.recipe, x, promoted));
      var managed := job.preview.managed;
      var good := x.probe == Installer.GOOD && !x.flagAfterProbe;
      && j < |t.jobs|
      && t.writes == s.writes + (if managed && good then [j] else [])
      && t.jobs[j].phase == Installer.Leaving(
           if x.probe.None? then Installer.IoError
           else if x.probe.value.cancelled || x.flagAfterProbe then Installer.CancelledResult
           else if !x.probe.value.success then Installer.FailedResult
           else if managed && !promoted then Installer.IoError else Installer.Ready)
  {
    SecondHalfSplits(joined, s, j, s.jobs[j].preview.recipe, x, promoted);
  }

  lemma LeavingIgnores(joined: bool, s: Installer.State, j: nat, x: Script, promoted: bool)
    requires j < |s.jobs| && s.jobs[j].phase.Leaving?
    ensures var t := RunFrom(joined, s, SecondHalf(j, s.jobs[j].preview.recipe, x, promoted));
      j < |t.jobs| && t.jobs[j].phase == s.jobs[j].phase && t.writes == s.writes
  {
    SecondHalfSplits(joined, s, j, s.jobs[j].preview.recipe, x, promoted);
  }

  /** The execution is a run of the service's steps for its job: the job ends leaving with
      exactly the result the execution returns, and has written exactly when the execution
      promotes. */
  lemma ExecutionIsServiceRun(joined: bool, s: Installer.State, j: nat, x: Script, promoted: bool)
    requires Installs(s, j, Installer.Installing)
    ensures var job := s.jobs[j];
      var recipe, managed := job.preview.recipe, job.preview.managed;
      var t := RunFrom(joined, s, FirstHalf(j, recipe, x) + SecondHalf(j, recipe, x, promoted));
      && j < |t.jobs| && t.jobs[j].phase == Installer.Leaving(ResultOf(managed, x, promoted))
      && t.writes == s.writes + (if managed && Verified(managed, x) then [j] else [])
  {
    var recipe := s.jobs[j].preview.recipe;
    var u := RunFrom(joined, s, FirstHalf(j, recipe, x));
    FirstHalfRuns(joined, s, j, x);
    RunOn(joined, s, FirstHalf(j, recipe, x), SecondHalf(j, recipe, x, promoted));
    if u.jobs[j].phase.Leaving? {
      LeavingIgnores(joined, u, j, x, promoted);
    } else {
      SecondHalfRuns(joined, u, j, x, promoted);
    }
  }
}
