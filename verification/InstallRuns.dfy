/** The install service together with the directories it promotes into: installs of any
    recipes interleave by locked section and by file operation. */
module InstallRuns {
  import opened Wrappers
  import opened Promotion
  import Promotions
  import Installer

  /** Each recipe has one destination and one backup; `jobs` are the promotions that have
      begun, by install. */
  datatype State = State(
    service: Installer.State,
    destination: map<string, Tree>,
    backup: map<string, Tree>,
    jobs: map<nat, Promotions.Job>)

  datatype Event =
    | Service(event: Installer.Event)
    | Operation(job: nat, staged: Option<Tree>, fault: Fault)

  function Start(destination: map<string, Tree>, backup: map<string, Tree>): State {
    State(Installer.Init(), destination, backup, map[])
  }

  function Dir(dirs: map<string, Tree>, recipe: string): Option<Tree> {
    if recipe in dirs then Some(dirs[recipe]) else None
  }

  function SetDir(dirs: map<string, Tree>, recipe: string, dir: Option<Tree>): map<string, Tree> {
    if dir.Some? then dirs[recipe := dir.value] else dirs - {recipe}
  }

  predicate Promotes(service: Installer.State, j: nat) {
    Installer.At(service, j, Installer.Promoting) && service.jobs[j].preview.managed
  }

  function Recipe(s: State, j: nat): string
    requires j < |s.service.jobs|
  {
    s.service.jobs[j].preview.recipe
  }

  /** A promotion that has not begun finds in staging what the installer left there. */
  function JobOf(s: State, j: nat, staged: Option<Tree>): Promotions.Job {
    if j in s.jobs then s.jobs[j] else Promotions.Waiting(staged)
  }

  function View(s: State, j: nat, job: Promotions.Job): Disk
    requires j < |s.service.jobs|
  {
    Disk(job.staging, Dir(s.destination, Recipe(s, j)), Dir(s.backup, Recipe(s, j)))
  }

  /** The service decides when a managed install promotes; the promotion's last operation
      tells the service its outcome. */
  function Step(joined: bool, s: State, e: Event): State {
    match e
    case Service(event) =>
      if event.PromoteJob? && Promotes(s.service, event.job) then s
      else s.(service := Installer.Step(joined, s.service, event))
    case Operation(j, staged, f) => if Promotes(s.service, j) then Operated(joined, s, j, staged, f) else s
  }

  function Operated(joined: bool, s: State, j: nat, staged: Option<Tree>, f: Fault): State
    requires Promotes(s.service, j)
  {
    var job := JobOf(s, j, staged);
    var (after, next) := Promotions.OperateJob(View(s, j, job), job, f);
    State(if !next.phase.Finished? then s.service
          else Installer.Step(joined, s.service, Installer.PromoteJob(j, next.phase.ok)),
          SetDir(s.destination, Recipe(s, j), after.destination),
          SetDir(s.backup, Recipe(s, j), after.backup),
          s.jobs[j := next])
  }

  function Run(joined: bool, start: State, events: seq<Event>): State {
    if events == [] then start else Step(joined, Run(joined, start, events[..|events| - 1]), events[|events| - 1])
  }

  function Before(joined: bool, start: State, events: seq<Event>, n: nat): State
    requires n <= |events|
  {
    Run(joined, start, events[..n])
  }

  lemma BeforeNext(joined: bool, start: State, events: seq<Event>, n: nat)
    requires n < |events|
    ensures Before(joined, start, events, n + 1) == Step(joined, Before(joined, start, events, n), events[n])
  {
    assert events[..n + 1][..n] == events[..n];
  }

  predicate InProgress(s: State, j: nat) {
    j in s.jobs && Promotions.InProgress(s.jobs[j].phase)
  }

  /** Old, new or backup, for the promotion of install `j`. */
  predicate Promise(s: State, j: nat) {
    j in s.jobs && j < |s.service.jobs| ==> Promotions.Promise(View(s, j, s.jobs[j]), s.jobs[j])
  }

  predicate KeptAt(joined: bool, start: State, events: seq<Event>, n: nat, j: nat)
    requires n < |events|
  {
    var s, t := Before(joined, start, events, n), Before(joined, start, events, n + 1);
    InProgress(s, j) || InProgress(t, j) ==> Promise(t, j)
  }

  ghost predicate KeptThroughout(joined: bool, start: State, events: seq<Event>) {
    forall n, j: nat :: 0 <= n < |events| ==> KeptAt(joined, start, events, n, j)
  }

  // ----- the service's part of a run is a run of the service

  lemma {:induction false} ServiceRun(joined: bool, start: State, events: seq<Event>)
    returns (service: seq<Installer.Event>)
    requires start.service == Installer.Init()
    ensures Run(joined, start, events).service == Installer.Run(joined, service)
  {
    if events == [] {
      service := [];
    } else {
      var s, e := Run(joined, start, events[..|events| - 1]), events[|events| - 1];
      service := ServiceRun(joined, start, events[..|events| - 1]);
      if Step(joined, s, e).service != s.service {
        var last := match e
          case Service(event) => event
          case Operation(j, staged, f) => Installer.PromoteJob(j, Step(joined, s, e).jobs[j].phase.ok);
        assert (service + [last])[..|service|] == service;
        service := service + [last];
      }
    }
  }

  lemma JoinedRunIsExclusive(start: State, events: seq<Event>)
    requires start.service == Installer.Init()
    ensures Installer.Exclusive(Run(true, start, events).service)
  {
    var service := ServiceRun(true, start, events);
    Installer.JoinedIsExclusive(service);
    assert service[..|service|] == service;
  }

  /** The directories change only by the operations of a managed install whose installer and
      probe both succeeded. */
  lemma OnlyVerifiedInstallsOperate(joined: bool, start: State, events: seq<Event>, n: nat)
    requires start.service == Installer.Init() && n < |events|
    requires var s, t := Before(joined, start, events, n), Before(joined, start, events, n + 1);
      s.destination != t.destination || s.backup != t.backup
    ensures var s := Before(joined, start, events, n);
      && events[n].Operation? && Promotes(s.service, events[n].job)
      && s.service.jobs[events[n].job].installer == Installer.GOOD
      && s.service.jobs[events[n].job].probe == Installer.GOOD
  {
    BeforeNext(joined, start, events, n);
    var service := ServiceRun(joined, start, events[..n]);
    Installer.RunKeepsInv(joined, service);
    assert Installer.JobOk(Before(joined, start, events, n).service.jobs[events[n].job]);
  }

  lemma StepKeepsDoomed(joined: bool, s: State, e: Event, j: nat)
    requires Installer.Doomed(s.service, j)
    ensures Installer.Doomed(Step(joined, s, e).service, j)
  {
    match e
    case Service(event) => Installer.DoomedStays(joined, s.service, event, j);
    case Operation(i, staged, f) =>
      if Promotes(s.service, i) {
        var job := JobOf(s, i, staged);
        var ok := Promotions.OperateJob(View(s, i, job), job, f).1.phase == Finished(true);
        Installer.DoomedStays(joined, s.service, Installer.PromoteJob(i, ok), j);
      }
  }

  lemma {:induction false} DoomedAlong(joined: bool, start: State, events: seq<Event>, n: nat, m: nat, j: nat)
    requires n <= m <= |events| && Installer.Doomed(Before(joined, start, events, n).service, j)
    ensures Installer.Doomed(Before(joined, start, events, m).service, j)
  {
    if n < m {
      var s := Before(joined, start, events, m - 1);
      DoomedAlong(joined, start, events, n, m - 1, j);
      StepKeepsDoomed(joined, s, events[m - 1], j);
      BeforeNext(joined, start, events, m - 1);
    }
  }

  /** An install cancelled before the check after its probe performs no file operation in the
      rest of the run. */
  lemma CancelledNeverOperates(joined: bool, start: State, events: seq<Event>, n: nat, m: nat, j: nat)
    requires n <= m < |events| && Installer.Doomed(Before(joined, start, events, n).service, j)
    requires events[m].Operation? && events[m].job == j
    ensures Before(joined, start, events, m + 1) == Before(joined, start, events, m)
  {
    DoomedAlong(joined, start, events, n, m, j);
    BeforeNext(joined, start, events, m);
  }

  // ----- promotions and installs stay in step

  /** A promotion is in progress exactly while its install is promoting. */
  predicate MatchedAt(s: State, j: nat) {
    j in s.jobs ==>
      && j < |s.service.jobs| && s.service.jobs[j].preview.managed
      && (s.service.jobs[j].phase.Promoting? || s.service.jobs[j].phase.Leaving? || s.service.jobs[j].phase.Ended?)
      && (Promotions.InProgress(s.jobs[j].phase) <==> s.service.jobs[j].phase.Promoting?)
      && !s.jobs[j].phase.Start?
  }

  lemma ServiceKeepsJob(joined: bool, s: Installer.State, e: Installer.Event, j: nat)
    requires j < |s.jobs|
    ensures var t := Installer.Step(joined, s, e);
      && j < |t.jobs| && t.jobs[j].preview == s.jobs[j].preview
      && (s.jobs[j].phase.Promoting? && !t.jobs[j].phase.Promoting? ==>
           e == Installer.PromoteJob(j, true) || e == Installer.PromoteJob(j, false))
      && (s.jobs[j].phase.Leaving? || s.jobs[j].phase.Ended? ==> t.jobs[j].phase.Leaving? || t.jobs[j].phase.Ended?)
      && (s.jobs[j].phase.Promoting? && !t.jobs[j].phase.Promoting? ==> t.jobs[j].phase.Leaving?)
  {
  }

  lemma StepKeepsMatched(joined: bool, s: State, e: Event, j: nat)
    requires MatchedAt(s, j)
    ensures MatchedAt(Step(joined, s, e), j)
  {
    match e
    case Service(event) =>
      if j in s.jobs {
        ServiceKeepsJob(joined, s.service, event, j);
      }
    case Operation(i, staged, f) =>
      if Promotes(s.service, i) {
        var job := JobOf(s, i, staged);
        var ok := Promotions.OperateJob(View(s, i, job), job, f).1.phase == Finished(true);
        ServiceKeepsJob(joined, s.service, Installer.PromoteJob(i, ok), i);
        if j in s.jobs {
          ServiceKeepsJob(joined, s.service, Installer.PromoteJob(i, ok), j);
        }
      }
  }

  lemma {:induction false} RunIsMatched(joined: bool, start: State, events: seq<Event>, j: nat)
    requires start.jobs == map[]
    ensures MatchedAt(Run(joined, start, events), j)
  {
    if events != [] {
      RunIsMatched(joined, start, events[..|events| - 1], j);
      StepKeepsMatched(joined, Run(joined, start, events[..|events| - 1]), events[|events| - 1], j);
    }
  }

  // ----- one install per recipe keeps every promotion

  predicate SteadyAt(s: State, j: nat) {
    j in s.jobs && j < |s.service.jobs| ==> Promotions.Steady(View(s, j, s.jobs[j]), s.jobs[j])
  }

  lemma OperationKeepsOther(joined: bool, s: State, i: nat, staged: Option<Tree>, f: Fault, j: nat)
    requires Promotes(s.service, i) && j != i && j in s.jobs && j < |s.service.jobs|
    requires Recipe(s, i) != Recipe(s, j)
    ensures var t := Operated(joined, s, i, staged, f);
      j in t.jobs && j < |t.service.jobs| && t.jobs[j] == s.jobs[j] && View(t, j, t.jobs[j]) == View(s, j, s.jobs[j])
  {
    var job := JobOf(s, i, staged);
    var (after, next) := Promotions.OperateJob(View(s, i, job), job, f);
    if next.phase.Finished? {
      ServiceKeepsJob(joined, s.service, Installer.PromoteJob(i, next.phase.ok), j);
    }
  }

  lemma OperationKeepsOwn(joined: bool, s: State, j: nat, staged: Option<Tree>, f: Fault)
    requires Promotes(s.service, j) && MatchedAt(s, j) && SteadyAt(s, j)
    ensures SteadyAt(Operated(joined, s, j, staged, f), j) && Promise(Operated(joined, s, j, staged, f), j)
  {
    var job := JobOf(s, j, staged);
    var (after, next) := Promotions.OperateJob(View(s, j, job), job, f);
    Promotions.OperateKeepsSteady(View(s, j, job), job, f);
    if next.phase.Finished? {
      ServiceKeepsJob(joined, s.service, Installer.PromoteJob(j, next.phase.ok), j);
    }
    var t := Operated(joined, s, j, staged, f);
    assert View(t, j, t.jobs[j]) == after;
  }

  lemma ServiceKeepsView(joined: bool, s: State, event: Installer.Event, j: nat)
    requires j in s.jobs && j < |s.service.jobs|
    ensures var t := Step(joined, s, Service(event));
      j in t.jobs && j < |t.service.jobs| && t.jobs[j] == s.jobs[j] && View(t, j, t.jobs[j]) == View(s, j, s.jobs[j])
  {
    ServiceKeepsJob(joined, s.service, event, j);
  }

  lemma StepKeepsSteady(joined: bool, s: State, e: Event, j: nat)
    requires Installer.Exclusive(s.service) && MatchedAt(s, j) && SteadyAt(s, j)
    ensures SteadyAt(Step(joined, s, e), j)
    ensures InProgress(s, j) || InProgress(Step(joined, s, e), j) ==> Promise(Step(joined, s, e), j)
  {
    match e
    case Service(event) =>
      if j in s.jobs {
        ServiceKeepsView(joined, s, event, j);
      }
    case Operation(i, staged, f) =>
      if Promotes(s.service, i) {
        if i == j {
          OperationKeepsOwn(joined, s, j, staged, f);
        } else if InProgress(s, j) {
          assert Installer.Active(s.service.jobs[i]) && Installer.Active(s.service.jobs[j]);
          assert Recipe(s, i) != Recipe(s, j);
          OperationKeepsOther(joined, s, i, staged, f, j);
        }
      }
  }

  lemma {:induction false} JoinedIsSteady(start: State, events: seq<Event>, j: nat)
    requires start.service == Installer.Init() && start.jobs == map[]
    ensures SteadyAt(Run(true, start, events), j)
  {
    if events != [] {
      var shorter := events[..|events| - 1];
      JoinedIsSteady(start, shorter, j);
      RunIsMatched(true, start, shorter, j);
      JoinedRunIsExclusive(start, shorter);
      StepKeepsSteady(true, Run(true, start, shorter), events[|events| - 1], j);
    }
  }

  lemma JoinedKeeps(start: State, events: seq<Event>)
    requires start.service == Installer.Init() && start.jobs == map[]
    ensures KeptThroughout(true, start, events)
  {
    forall n, j: nat | 0 <= n < |events|
      ensures KeptAt(true, start, events, n, j)
    {
      JoinedIsSteady(start, events[..n], j);
      RunIsMatched(true, start, events[..n], j);
      JoinedRunIsExclusive(start, events[..n]);
      StepKeepsSteady(true, Before(true, start, events, n), events[n], j);
      BeforeNext(true, start, events, n);
    }
  }

  // ----- two installs of one recipe can lose its installation

  ghost predicate Reachable(start: State, s: State) {
    exists events :: Run(false, start, events) == s
  }

  lemma ReachStep(start: State, s: State, e: Event, t: State)
    requires Reachable(start, s) && Step(false, s, e) == t
    ensures Reachable(start, t)
  {
    var events :| Run(false, start, events) == s;
    var longer := events + [e];
    assert longer[..|longer| - 1] == events;
    assert Run(false, start, longer) == t;
  }

  lemma {:induction false} ReachService(start: State, events: seq<Installer.Event>)
    requires start.service == Installer.Init()
    requires forall i :: 0 <= i < |events| ==> !events[i].PromoteJob?
    ensures Reachable(start, start.(service := Installer.Run(false, events)))
  {
    if events == [] {
      assert Run(false, start, []) == start;
    } else {
      ReachService(start, events[..|events| - 1]);
      ReachStep(start, start.(service := Installer.Run(false, events[..|events| - 1])), Service(events[|events| - 1]),
                start.(service := Installer.Run(false, events)));
    }
  }

  function Dirs(recipe: string, dir: Option<Tree>): map<string, Tree> {
    SetDir(map[], recipe, dir)
  }

  function RunningBoth(p: Installer.Preview, a: Installer.Job, b: Installer.Job): Installer.State {
    Installer.State(2, map[], map[p.recipe := 1], [a, b], [])
  }

  /** Install `token` of the recipe, with what it has seen so far. */
  function Install(p: Installer.Preview, token: nat, phase: Installer.Phase): Installer.Job {
    var installed := if phase.Installing? then None else Installer.GOOD;
    var probed := if phase.ProbeDone? || phase.Promoting? then Installer.GOOD else None;
    Installer.Job(token, p, phase, false, installed, probed)
  }

  /** The event that takes an install on from a phase, and the phase it leads to. */
  function Onward(phase: Installer.Phase, j: nat): (Installer.Event, Installer.Phase) {
    match phase
    case Installing => (Installer.RunInstaller(j, Installer.GOOD), Installer.InstallerDone(Installer.GOOD.value))
    case InstallerDone(_) => (Installer.LoadAfterInstall(j, true), Installer.Probing)
    case Probing => (Installer.RunProbe(j, Installer.GOOD), Installer.ProbeDone(Installer.GOOD.value))
    case _ => (Installer.LoadAfterProbe(j), Installer.Promoting)
  }

  predicate Verifying(phase: Installer.Phase) {
    || phase.Installing? || phase == Installer.InstallerDone(Installer.GOOD.value) || phase.Probing?
    || phase == Installer.ProbeDone(Installer.GOOD.value)
  }

  lemma OneGoesOn(p: Installer.Preview, a: Installer.Phase, b: Installer.Phase, j: nat)
    requires j < 2 && Verifying(if j == 0 then a else b)
    ensures var (event, next) := Onward(if j == 0 then a else b, j);
      Installer.Step(false, RunningBoth(p, Install(p, 0, a), Install(p, 1, b)), event) ==
        RunningBoth(p, Install(p, 0, if j == 0 then next else a), Install(p, 1, if j == 1 then next else b))
  {
    var s := RunningBoth(p, Install(p, 0, a), Install(p, 1, b));
    var (event, next) := Onward(if j == 0 then a else b, j);
    assert Installer.Step(false, s, event).jobs == s.jobs[j := Install(p, j, next)];
  }

  lemma BothGoOn(start: State, p: Installer.Preview, phase: Installer.Phase)
    requires Verifying(phase)
    requires Reachable(start, start.(service := RunningBoth(p, Install(p, 0, phase), Install(p, 1, phase))))
    ensures var next := Onward(phase, 0).1;
      Reachable(start, start.(service := RunningBoth(p, Install(p, 0, next), Install(p, 1, next))))
  {
    var next := Onward(phase, 0).1;
    OneGoesOn(p, phase, phase, 0);
    var half := start.(service := RunningBoth(p, Install(p, 0, next), Install(p, 1, phase)));
    ReachStep(start, start.(service := RunningBoth(p, Install(p, 0, phase), Install(p, 1, phase))),
              Service(Onward(phase, 0).0), half);
    OneGoesOn(p, next, phase, 1);
    ReachStep(start, half, Service(Onward(phase, 1).0),
              start.(service := RunningBoth(p, Install(p, 0, next), Install(p, 1, next))));
  }

  /** Both installs of the recipe are promoting. */
  function Both(p: Installer.Preview, destination: Option<Tree>, backup: Option<Tree>,
                jobs: map<nat, Promotions.Job>): State {
    State(RunningBoth(p, Install(p, 0, Installer.Promoting), Install(p, 1, Installer.Promoting)),
          Dirs(p.recipe, destination), Dirs(p.recipe, backup), jobs)
  }

  lemma OperationReaches(start: State, p: Installer.Preview, d: Disk, jobs: map<nat, Promotions.Job>, j: nat,
                         job: Promotions.Job)
    requires p.managed && j < 2 && Reachable(start, Both(p, d.destination, d.backup, jobs))
    requires job == (if j in jobs then jobs[j] else Promotions.Waiting(job.staging)) && job.staging == d.staging
    requires !Promotions.OperateJob(d, job, Promotions.WORKS).1.phase.Finished?
    ensures var (after, next) := Promotions.OperateJob(d, job, Promotions.WORKS);
      Reachable(start, Both(p, after.destination, after.backup, jobs[j := next]))
  {
    var s := Both(p, d.destination, d.backup, jobs);
    var (after, next) := Promotions.OperateJob(d, job, Promotions.WORKS);
    assert Promotes(s.service, j) && Recipe(s, j) == p.recipe && JobOf(s, j, job.staging) == job;
    assert View(s, j, job) == d;
    assert SetDir(s.destination, p.recipe, after.destination) == Dirs(p.recipe, after.destination);
    assert SetDir(s.backup, p.recipe, after.backup) == Dirs(p.recipe, after.backup);
    ReachStep(start, s, Operation(j, job.staging, Promotions.WORKS),
              Both(p, after.destination, after.backup, jobs[j := next]));
  }

  function Installed(p: Installer.Preview): State {
    Start(Dirs(p.recipe, Promotions.OLD_TREE), map[])
  }

  lemma BothReached(p: Installer.Preview)
    requires p.usable
    ensures Reachable(Installed(p), Both(p, Promotions.OLD_TREE, None, map[]))
  {
    var start := Installed(p);
    Installer.RaceEnters(p);
    ReachService(start, Installer.Race(p));
    BothGoOn(start, p, Installer.Installing);
    BothGoOn(start, p, Installer.InstallerDone(Installer.GOOD.value));
    BothGoOn(start, p, Installer.Probing);
    BothGoOn(start, p, Installer.ProbeDone(Installer.GOOD.value));
  }

  lemma FirstOperates(p: Installer.Preview, at: Phase, next: Phase)
    requires p.managed && at in {CheckBackup, CheckDestination}
      && next == (if at.CheckBackup? then CheckDestination else MoveAside)
    requires Reachable(Installed(p), Both(p, Promotions.OLD_TREE, None, map[0 := Promotions.FirstJob(at)]))
    ensures Reachable(Installed(p), Both(p, Promotions.OLD_TREE, None, map[0 := Promotions.FirstJob(next)]))
  {
    var jobs := map[0 := Promotions.FirstJob(at)];
    OperationReaches(Installed(p), p, Disk(Promotions.FIRST_TREE, Promotions.OLD_TREE, None), jobs, 0,
                     Promotions.FirstJob(at));
    assert jobs[0 := Promotions.FirstJob(next)] == map[0 := Promotions.FirstJob(next)];
  }

  lemma FirstBegins(p: Installer.Preview)
    requires p.usable && p.managed
    ensures Reachable(Installed(p), Both(p, Promotions.OLD_TREE, None, map[0 := Promotions.FirstJob(CheckBackup)]))
  {
    BothReached(p);
    OperationReaches(Installed(p), p, Disk(Promotions.FIRST_TREE, Promotions.OLD_TREE, None), map[], 0,
                     Promotions.Waiting(Promotions.FIRST_TREE));
    assert map[][0 := Promotions.FirstJob(CheckBackup)] == map[0 := Promotions.FirstJob(CheckBackup)];
  }

  lemma FirstMovesAside(p: Installer.Preview)
    requires p.usable && p.managed
    ensures Reachable(Installed(p), Both(p, None, Promotions.OLD_TREE, map[0 := Promotions.FirstJob(MoveIn)]))
  {
    FirstBegins(p);
    FirstOperates(p, CheckBackup, CheckDestination);
    FirstOperates(p, CheckDestination, MoveAside);
    var jobs := map[0 := Promotions.FirstJob(MoveAside)];
    OperationReaches(Installed(p), p, Disk(Promotions.FIRST_TREE, Promotions.OLD_TREE, None), jobs, 0,
                     Promotions.FirstJob(MoveAside));
    assert jobs[0 := Promotions.FirstJob(MoveIn)] == map[0 := Promotions.FirstJob(MoveIn)];
  }

  function RacingJobs(): map<nat, Promotions.Job> {
    map[0 := Promotions.FirstJob(MoveIn), 1 := Promotions.SecondJob(Promotions.SECOND_TREE, CheckDestination, None)]
  }

  /** While the first install is between its two renames, the second removes the backup it
      made: neither the old tree nor the new one is in place, and nothing can be restored. */
  lemma RacingInstallsLoseTree(p: Installer.Preview)
    requires p.usable && p.managed
    ensures Reachable(Installed(p), Both(p, None, None, RacingJobs()))
  {
    var d := Disk(Promotions.SECOND_TREE, None, Promotions.OLD_TREE);
    var j0 := map[0 := Promotions.FirstJob(MoveIn)];
    FirstMovesAside(p);
    OperationReaches(Installed(p), p, d, j0, 1, Promotions.Waiting(Promotions.SECOND_TREE));
    var j1 := j0[1 := Promotions.SecondJob(Promotions.SECOND_TREE, CheckBackup, None)];
    OperationReaches(Installed(p), p, d, j1, 1, Promotions.SecondJob(Promotions.SECOND_TREE, CheckBackup, None));
    var j2 := j1[1 := Promotions.SecondJob(Promotions.SECOND_TREE, RemoveOld, None)];
    OperationReaches(Installed(p), p, d, j2, 1, Promotions.SecondJob(Promotions.SECOND_TREE, RemoveOld, None));
    assert j2[1 := Promotions.SecondJob(Promotions.SECOND_TREE, CheckDestination, None)] == RacingJobs();
  }

  lemma BrokenAtEnd(start: State, events: seq<Event>, j: nat)
    requires start.jobs == map[] && InProgress(Run(false, start, events), j) && !Promise(Run(false, start, events), j)
    ensures !KeptThroughout(false, start, events)
  {
    var n := |events| - 1;
    assert events[..n + 1] == events;
    assert !KeptAt(false, start, events, n, j);
  }

  /** From every disk and on every run of installs, each promotion keeps old, new or backup
      from its first operation to its last, exactly when checking for a running install and
      entering it are one step. */
  lemma KeptExactlyWhenJoined(joined: bool)
    ensures (forall destination, backup, events :: KeptThroughout(joined, Start(destination, backup), events)) <==>
      joined
  {
    if joined {
      forall destination, backup, events
        ensures KeptThroughout(joined, Start(destination, backup), events)
      {
        JoinedKeeps(Start(destination, backup), events);
      }
    } else {
      var p := Installer.Preview("rust-analyzer", true, true);
      var lost := Both(p, None, None, RacingJobs());
      RacingInstallsLoseTree(p);
      var events :| Run(false, Installed(p), events) == lost;
      assert InProgress(lost, 0) && !Promise(lost, 0);
      BrokenAtEnd(Installed(p), events, 0);
      assert !KeptThroughout(joined, Start(Dirs(p.recipe, Promotions.OLD_TREE), map[]), events);
    }
  }
}
