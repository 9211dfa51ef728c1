/** Any number of promotions of one destination, interleaved by file operation. They
    share the destination and its backup; each has a staging directory of its own. */
module Promotions {
  import opened Wrappers
  import opened Promotion

  /** `staged` is the tree that was staged, `found` what the destination held at the first
      file operation. */
  datatype Job = Job(staging: Option<Tree>, phase: Phase, staged: Option<Tree>, found: Option<Tree>)

  datatype State = State(destination: Option<Tree>, backup: Option<Tree>, jobs: seq<Job>)

  datatype Event = Begin(staged: Option<Tree>) | Advance(job: nat, fault: Fault)

  /** Between its first and last file operation. */
  predicate InProgress(phase: Phase) {
    !phase.Start? && !phase.Finished?
  }

  /** The shared directories as one job sees them. */
  function View(s: State, job: Job): Disk {
    Disk(job.staging, s.destination, s.backup)
  }

  function OperateJob(d: Disk, job: Job, f: Fault): (Disk, Job) {
    var (after, next) := Operate(d, job.phase, f);
    (after, Job(after.staging, next, job.staged, if job.phase.Start? then d.destination else job.found))
  }

  /** A job may operate only while every other promotion in progress is in an open phase.
      The program imposes no such policy: all its phases are open. */
  predicate Allowed(open: Phase -> bool, s: State, j: nat) {
    forall i :: 0 <= i < |s.jobs| && i != j && InProgress(s.jobs[i].phase) ==> open(s.jobs[i].phase)
  }

  function Operated(s: State, j: nat, f: Fault): State
    requires j < |s.jobs|
  {
    var (after, job) := OperateJob(View(s, s.jobs[j]), s.jobs[j], f);
    State(after.destination, after.backup, s.jobs[j := job])
  }

  function Step(open: Phase -> bool, s: State, e: Event): State {
    match e
    case Begin(staged) => s.(jobs := s.jobs + [Job(staged, Start, staged, None)])
    case Advance(j, f) => if j < |s.jobs| && Allowed(open, s, j) then Operated(s, j, f) else s
  }

  function Run(open: Phase -> bool, start: State, events: seq<Event>): State {
    if events == [] then start else Step(open, Run(open, start, events[..|events| - 1]), events[|events| - 1])
  }

  /** The state before event `n`. */
  function Before(open: Phase -> bool, start: State, events: seq<Event>, n: nat): State
    requires n <= |events|
  {
    Run(open, start, events[..n])
  }

  lemma BeforeNext(open: Phase -> bool, start: State, events: seq<Event>, n: nat)
    requires n < |events|
    ensures Before(open, start, events, n + 1) == Step(open, Before(open, start, events, n), events[n])
  {
    assert events[..n + 1][..n] == events[..n];
  }

  /** Old, new or backup, for one promotion. */
  predicate Promise(d: Disk, job: Job) {
    OldOrNew(Disk(job.staged, job.found, None), d)
  }

  /** The promotion `j`, when in progress before or after event `n`, is kept after it. */
  predicate JobKeptAt(open: Phase -> bool, start: State, events: seq<Event>, j: nat, n: nat)
    requires n < |events|
  {
    var s, t := Before(open, start, events, n), Before(open, start, events, n + 1);
    j < |s.jobs| && j < |t.jobs| && (InProgress(s.jobs[j].phase) || InProgress(t.jobs[j].phase)) ==>
      Promise(View(t, t.jobs[j]), t.jobs[j])
  }

  predicate KeptAt(open: Phase -> bool, start: State, events: seq<Event>, n: nat)
    requires n < |events|
  {
    forall j :: 0 <= j < |Before(open, start, events, n).jobs| ==> JobKeptAt(open, start, events, j, n)
  }

  predicate KeptThroughout(open: Phase -> bool, start: State, events: seq<Event>) {
    forall n :: 0 <= n < |events| ==> KeptAt(open, start, events, n)
  }

  // ----- uninterrupted promotions keep the promise

  /** How far a promotion has got is reflected in the directories, when it is alone. */
  predicate Steady(d: Disk, job: Job) {
    && (job.phase.Start? ==> job.staging == job.staged)
    && (InProgress(job.phase) ==>
         && (!job.phase.CheckLeftover? && !job.phase.RemoveLeftover? ==> d.staging == job.staged)
         && (job.found.Some? ==>
              match job.phase
              case CheckBackup => d.destination == job.found
              case RemoveOld => d.destination == job.found
              case CheckDestination => d.destination == job.found && d.backup.None?
              case MoveAside => d.destination == job.found && d.backup.None?
              case CheckLeftover => job.staged.Some? && d.destination == job.staged
              case RemoveLeftover => job.staged.Some? && d.destination == job.staged
              case _ => d.destination.None? && d.backup == job.found))
  }

  /** Whatever its outcome, an operation of a steady promotion leaves it steady and keeps
      the promise. */
  lemma OperateKeepsSteady(d: Disk, job: Job, f: Fault)
    requires Steady(d, job) && !job.phase.Finished? && d.staging == job.staging
    ensures var (after, next) := OperateJob(d, job, f);
      && Steady(after, next) && after.staging == next.staging
      && Promise(after, next)
  {
  }

  /** The event is an operation of another promotion while `j` is in progress. */
  predicate Interrupts(open: Phase -> bool, s: State, e: Event, j: nat) {
    && j < |s.jobs| && InProgress(s.jobs[j].phase)
    && e.Advance? && e.job < |s.jobs| && e.job != j && Allowed(open, s, e.job) && !s.jobs[e.job].phase.Finished?
  }

  /** No other promotion operates while `j` is in progress, up to event `n`. */
  predicate Uninterrupted(open: Phase -> bool, start: State, events: seq<Event>, j: nat, n: nat)
    requires n <= |events|
  {
    forall k :: 0 <= k < n ==>
      var s := Before(open, start, events, k);
      !Interrupts(open, s, events[k], j)
  }

  predicate SteadyAt(s: State, j: nat) {
    j < |s.jobs| ==> Steady(View(s, s.jobs[j]), s.jobs[j])
  }

  lemma StepKeepsSteady(open: Phase -> bool, s: State, e: Event, j: nat)
    requires SteadyAt(s, j)
    requires !Interrupts(open, s, e, j)
    ensures SteadyAt(Step(open, s, e), j)
    ensures var t := Step(open, s, e);
      j < |s.jobs| && (InProgress(s.jobs[j].phase) || InProgress(t.jobs[j].phase)) ==>
        Promise(View(t, t.jobs[j]), t.jobs[j])
  {
    if e.Advance? && e.job == j && j < |s.jobs| && !s.jobs[j].phase.Finished? {
      OperateKeepsSteady(View(s, s.jobs[j]), s.jobs[j], e.fault);
    }
  }

  lemma {:induction false} UninterruptedIsSteady(open: Phase -> bool, start: State, events: seq<Event>, j: nat, n: nat)
    requires n <= |events| && start.jobs == [] && Uninterrupted(open, start, events, j, n)
    ensures SteadyAt(Before(open, start, events, n), j)
  {
    if n > 0 {
      UninterruptedIsSteady(open, start, events, j, n - 1);
      BeforeNext(open, start, events, n - 1);
      StepKeepsSteady(open, Before(open, start, events, n - 1), events[n - 1], j);
    }
  }

  /** Under every pattern of faults, a promotion that no other one interrupts between its
      first and last operation keeps old, new or backup at every point, whatever the others
      do before and after. */
  lemma UninterruptedKeepsPromise(open: Phase -> bool, start: State, events: seq<Event>, j: nat, n: nat)
    requires n < |events| && start.jobs == [] && Uninterrupted(open, start, events, j, |events|)
    ensures JobKeptAt(open, start, events, j, n)
  {
    UninterruptedIsSteady(open, start, events, j, n);
    BeforeNext(open, start, events, n);
    StepKeepsSteady(open, Before(open, start, events, n), events[n], j);
  }

  // ----- closing the phases

  ghost predicate Closed(open: Phase -> bool) {
    forall phase :: InProgress(phase) ==> !open(phase)
  }

  lemma ClosedKeeps(open: Phase -> bool, start: State, events: seq<Event>)
    requires Closed(open) && start.jobs == []
    ensures KeptThroughout(open, start, events)
  {
    forall n | 0 <= n < |events|
      ensures KeptAt(open, start, events, n)
    {
      var s := Before(open, start, events, n);
      forall j | 0 <= j < |s.jobs|
        ensures JobKeptAt(open, start, events, j, n)
      {
        UninterruptedKeepsPromise(open, start, events, j, n);
      }
    }
  }

  // ----- any open phase loses an installation

  ghost predicate Reachable(open: Phase -> bool, start: State, s: State) {
    exists events :: Run(open, start, events) == s
  }

  lemma ReachStep(open: Phase -> bool, start: State, s: State, e: Event, t: State)
    requires Reachable(open, start, s) && Step(open, s, e) == t
    ensures Reachable(open, start, t)
  {
    var events :| Run(open, start, events) == s;
    var longer := events + [e];
    assert longer[..|longer| - 1] == events;
    assert Run(open, start, longer) == t;
  }

  const OLD_TREE: Option<Tree> := Some(Tree(map["tool" := [0]]))
  const FIRST_TREE: Option<Tree> := Some(Tree(map["tool" := [1]]))
  const SECOND_TREE: Option<Tree> := Some(Tree(map["tool" := [2]]))
  const STALE_TREE: Option<Tree> := Some(Tree(map["tool" := [3]]))
  const WORKS: Fault := Fault(true, {})
  const FAILS: Fault := Fault(false, {})

  lemma TreesDiffer()
    ensures OLD_TREE != FIRST_TREE && OLD_TREE != SECOND_TREE && FIRST_TREE != SECOND_TREE
    ensures !Replaceable(OLD_TREE) && !Replaceable(FIRST_TREE) && !Replaceable(SECOND_TREE) && !Replaceable(STALE_TREE)
  {
    assert OLD_TREE.value.files["tool"] == [0] && FIRST_TREE.value.files["tool"] == [1];
    assert SECOND_TREE.value.files["tool"] == [2] && STALE_TREE.value.files["tool"] == [3];
    assert "tool" in OLD_TREE.value.files && "tool" in FIRST_TREE.value.files && "tool" in SECOND_TREE.value.files
      && "tool" in STALE_TREE.value.files;
  }

  function Installed(backup: Option<Tree>): State {
    State(OLD_TREE, backup, [])
  }

  /** Two promotions: the first in `first`, the second in `second`. */
  function Pair(destination: Option<Tree>, backup: Option<Tree>, first: Job, second: Job): State {
    State(destination, backup, [first, second])
  }

  /** The first job after its first operation. */
  function FirstJob(phase: Phase): Job {
    Job(if phase.CheckLeftover? || phase.RemoveLeftover? then None else FIRST_TREE, phase, FIRST_TREE, OLD_TREE)
  }

  function Waiting(staged: Option<Tree>): Job {
    Job(staged, Start, staged, None)
  }

  function SecondJob(staging: Option<Tree>, phase: Phase, found: Option<Tree>): Job {
    Job(staging, phase, SECOND_TREE, found)
  }

  lemma FirstBegins(open: Phase -> bool, backup: Option<Tree>)
    ensures Reachable(open, Installed(backup), Pair(OLD_TREE, backup, FirstJob(CheckBackup), Waiting(SECOND_TREE)))
  {
    var start := Installed(backup);
    assert Run(open, start, []) == start;
    ReachStep(open, start, start, Begin(FIRST_TREE), State(OLD_TREE, backup, [Waiting(FIRST_TREE)]));
    ReachStep(open, start, State(OLD_TREE, backup, [Waiting(FIRST_TREE)]), Begin(SECOND_TREE),
              Pair(OLD_TREE, backup, Waiting(FIRST_TREE), Waiting(SECOND_TREE)));
    ReachStep(open, start, Pair(OLD_TREE, backup, Waiting(FIRST_TREE), Waiting(SECOND_TREE)), Advance(0, WORKS),
              Pair(OLD_TREE, backup, FirstJob(CheckBackup), Waiting(SECOND_TREE)));
  }

  /** The directories when the first job, alone so far, reaches a phase. */
  function Shape(phase: Phase): (Option<Tree>, Option<Tree>) {
    match phase
    case RemoveOld => (OLD_TREE, STALE_TREE)
    case MoveIn => (None, OLD_TREE)
    case CheckRestore => (None, OLD_TREE)
    case Restore => (None, OLD_TREE)
    case CheckLeftover => (FIRST_TREE, OLD_TREE)
    case RemoveLeftover => (FIRST_TREE, OLD_TREE)
    case _ => (OLD_TREE, None)
  }

  function StartOf(phase: Phase): State {
    Installed(if phase.RemoveOld? then STALE_TREE else None)
  }

  function Reached(phase: Phase): State {
    Pair(Shape(phase).0, Shape(phase).1, FirstJob(phase), Waiting(SECOND_TREE))
  }

  /** The phase before it on the first job's way, and the outcome that leads on. */
  function Previous(phase: Phase): (Phase, Fault) {
    match phase
    case RemoveOld => (CheckBackup, WORKS)
    case CheckDestination => (CheckBackup, WORKS)
    case MoveAside => (CheckDestination, WORKS)
    case MoveIn => (MoveAside, WORKS)
    case CheckRestore => (MoveIn, FAILS)
    case Restore => (CheckRestore, WORKS)
    case CheckLeftover => (MoveIn, WORKS)
    case RemoveLeftover => (CheckLeftover, WORKS)
    case _ => (Start, WORKS)
  }

  function Distance(phase: Phase): nat {
    match phase
    case CheckBackup => 1
    case RemoveOld => 2
    case CheckDestination => 2
    case MoveAside => 3
    case MoveIn => 4
    case CheckRestore => 5
    case Restore => 6
    case CheckLeftover => 5
    case RemoveLeftover => 6
    case _ => 0
  }

  lemma StepToPhase(open: Phase -> bool, phase: Phase)
    requires InProgress(phase) && !phase.CheckBackup? && !phase.RemoveOld?
    ensures var (previous, fault) := Previous(phase);
      && InProgress(previous) && StartOf(previous) == StartOf(phase) && Distance(previous) < Distance(phase)
      && Step(open, Reached(previous), Advance(0, fault)) == Reached(phase)
  {
    TreesDiffer();
    var (previous, fault) := Previous(phase);
    var s := Reached(previous);
    assert Allowed(open, s, 0);
    assert Operated(s, 0, fault) == Reached(phase);
  }

  /** Every phase in progress is reached by the first job with the second still waiting. */
  lemma {:induction false} ReachPhase(open: Phase -> bool, phase: Phase)
    requires InProgress(phase)
    ensures Reachable(open, StartOf(phase), Reached(phase))
    decreases Distance(phase)
  {
    TreesDiffer();
    if phase.CheckBackup? {
      FirstBegins(open, None);
    } else if phase.RemoveOld? {
      FirstBegins(open, STALE_TREE);
      ReachStep(open, StartOf(phase), Pair(OLD_TREE, STALE_TREE, FirstJob(CheckBackup), Waiting(SECOND_TREE)),
                Advance(0, WORKS), Reached(phase));
    } else {
      var (previous, fault) := Previous(phase);
      ReachPhase(open, previous);
      StepToPhase(open, phase);
      ReachStep(open, StartOf(phase), Reached(previous), Advance(0, fault), Reached(phase));
    }
  }

  /** The second job operates while the first rests in an open phase. */
  lemma SecondSteps(open: Phase -> bool, start: State, phase: Phase, d: Disk, found: Option<Tree>, at: Phase, e: Disk,
                    next: Phase)
    requires open(phase)
    requires Reachable(open, start, Pair(d.destination, d.backup, FirstJob(phase), SecondJob(d.staging, at, found)))
    requires !at.Start? && Operate(d, at, WORKS) == (e, next)
    ensures Reachable(open, start, Pair(e.destination, e.backup, FirstJob(phase), SecondJob(e.staging, next, found)))
  {
    ReachStep(open, start, Pair(d.destination, d.backup, FirstJob(phase), SecondJob(d.staging, at, found)),
              Advance(1, WORKS),
              Pair(e.destination, e.backup, FirstJob(phase), SecondJob(e.staging, next, found)));
  }

  lemma SecondStarts(open: Phase -> bool, phase: Phase)
    requires InProgress(phase) && open(phase)
    ensures var (destination, backup) := Shape(phase);
      Reachable(open, StartOf(phase),
        Pair(destination, backup, FirstJob(phase), SecondJob(SECOND_TREE, CheckBackup, destination)))
  {
    ReachPhase(open, phase);
    var (destination, backup) := Shape(phase);
    ReachStep(open, StartOf(phase), Reached(phase), Advance(1, WORKS),
              Pair(destination, backup, FirstJob(phase), SecondJob(SECOND_TREE, CheckBackup, destination)));
  }

  /** The second job has checked for a backup and removed the one it found. */
  lemma SecondClears(open: Phase -> bool, phase: Phase)
    requires InProgress(phase) && open(phase)
    ensures var (destination, _) := Shape(phase);
      Reachable(open, StartOf(phase),
        Pair(destination, None, FirstJob(phase), SecondJob(SECOND_TREE, CheckDestination, destination)))
  {
    SecondStarts(open, phase);
    var (destination, backup) := Shape(phase);
    var d := Disk(SECOND_TREE, destination, backup);
    if backup.Some? {
      SecondSteps(open, StartOf(phase), phase, d, destination, CheckBackup, d, RemoveOld);
      SecondSteps(open, StartOf(phase), phase, d, destination, RemoveOld, d.(backup := None), CheckDestination);
    } else {
      SecondSteps(open, StartOf(phase), phase, d, destination, CheckBackup, d, CheckDestination);
    }
  }

  lemma SecondMovesAside(open: Phase -> bool, phase: Phase)
    requires InProgress(phase) && open(phase) && Shape(phase).0.Some?
    ensures var (destination, _) := Shape(phase);
      Reachable(open, StartOf(phase),
        Pair(None, destination, FirstJob(phase), SecondJob(SECOND_TREE, MoveIn, destination)))
  {
    SecondClears(open, phase);
    var (destination, _) := Shape(phase);
    var d := Disk(SECOND_TREE, destination, None);
    SecondSteps(open, StartOf(phase), phase, d, destination, CheckDestination, d, MoveAside);
    SecondSteps(open, StartOf(phase), phase, d, destination, MoveAside, Disk(SECOND_TREE, None, destination), MoveIn);
  }

  lemma SecondFinishes(open: Phase -> bool, phase: Phase)
    requires InProgress(phase) && open(phase) && Shape(phase).0.Some?
    ensures var (destination, _) := Shape(phase);
      Reachable(open, StartOf(phase),
        Pair(SECOND_TREE, None, FirstJob(phase), SecondJob(None, Finished(true), destination)))
  {
    SecondMovesAside(open, phase);
    var (destination, _) := Shape(phase);
    SecondSteps(open, StartOf(phase), phase, Disk(SECOND_TREE, None, destination), destination, MoveIn,
                Disk(None, SECOND_TREE, destination), CheckLeftover);
    SecondSteps(open, StartOf(phase), phase, Disk(None, SECOND_TREE, destination), destination, CheckLeftover,
                Disk(None, SECOND_TREE, destination), RemoveLeftover);
    SecondSteps(open, StartOf(phase), phase, Disk(None, SECOND_TREE, destination), destination, RemoveLeftover,
                Disk(None, SECOND_TREE, None), Finished(true));
  }

  /** Interrupted in any phase at all, a promotion can lose old, new and backup at once. */
  lemma InterruptionBreaks(open: Phase -> bool, phase: Phase) returns (s: State)
    requires InProgress(phase) && open(phase)
    ensures Reachable(open, StartOf(phase), s) && |s.jobs| == 2
    ensures InProgress(s.jobs[0].phase) && !Promise(View(s, s.jobs[0]), s.jobs[0])
  {
    TreesDiffer();
    if Shape(phase).0.Some? {
      SecondFinishes(open, phase);
      s := Pair(SECOND_TREE, None, FirstJob(phase), SecondJob(None, Finished(true), Shape(phase).0));
    } else {
      SecondClears(open, phase);
      s := Pair(None, None, FirstJob(phase), SecondJob(SECOND_TREE, CheckDestination, None));
    }
  }

  lemma {:induction false} FirstBroken(open: Phase -> bool, start: State, events: seq<Event>) returns (n: nat)
    requires start.jobs == [] && |Run(open, start, events).jobs| > 0
    requires var s := Run(open, start, events); InProgress(s.jobs[0].phase) && !Promise(View(s, s.jobs[0]), s.jobs[0])
    ensures n < |events| && !KeptAt(open, start, events, n)
  {
    n := |events| - 1;
    var s, t := Before(open, start, events, n), Before(open, start, events, n + 1);
    assert events[..n + 1] == events;
    BeforeNext(open, start, events, n);
    assert !JobKeptAt(open, start, events, 0, n);
  }

  /** From every disk, on every run and under every pattern of faults each promotion keeps old,
      new or backup from its first operation to its last, exactly when no other promotion of
      that destination may operate in any phase between them. */
  lemma KeptExactlyWhenClosed(open: Phase -> bool)
    ensures (forall start: State, events :: start.jobs == [] ==> KeptThroughout(open, start, events)) <==> Closed(open)
  {
    if Closed(open) {
      forall start: State, events | start.jobs == []
        ensures KeptThroughout(open, start, events)
      {
        ClosedKeeps(open, start, events);
      }
    } else {
      var phase :| InProgress(phase) && open(phase);
      var s := InterruptionBreaks(open, phase);
      var events :| Run(open, StartOf(phase), events) == s;
      var n := FirstBroken(open, StartOf(phase), events);
      assert !KeptThroughout(open, StartOf(phase), events);
    }
  }

  lemma SecondFails(open: Phase -> bool)
    requires open(MoveIn)
    ensures Reachable(open, Installed(None),
        Pair(None, None, FirstJob(MoveIn), SecondJob(SECOND_TREE, Finished(false), None)))
  {
    var start, d := StartOf(MoveIn), Disk(SECOND_TREE, None, None);
    SecondClears(open, MoveIn);
    SecondSteps(open, start, MoveIn, d, None, CheckDestination, d, MoveIn);
    ReachStep(open, start, Pair(None, None, FirstJob(MoveIn), SecondJob(SECOND_TREE, MoveIn, None)), Advance(1, FAILS),
              Pair(None, None, FirstJob(MoveIn), SecondJob(SECOND_TREE, CheckRestore, None)));
    SecondSteps(open, start, MoveIn, d, None, CheckRestore, d, Finished(false));
  }

  /** With the first promotion between its two renames, the second removes the backup; when
      both then fail to move in, no tree is left and there is nothing to restore. The program
      opens every phase, this one included. */
  lemma ConcurrentPromotionsLoseInstallation(open: Phase -> bool)
    requires open(MoveIn)
    ensures Reachable(open, Installed(None),
        Pair(None, None, FirstJob(Finished(false)), SecondJob(SECOND_TREE, Finished(false), None)))
  {
    var start, second := Installed(None), SecondJob(SECOND_TREE, Finished(false), None);
    SecondFails(open);
    ReachStep(open, start, Pair(None, None, FirstJob(MoveIn), second), Advance(0, FAILS),
              Pair(None, None, FirstJob(CheckRestore), second));
    ReachStep(open, start, Pair(None, None, FirstJob(CheckRestore), second), Advance(0, WORKS),
              Pair(None, None, FirstJob(Finished(false)), second));
  }
}
