/** What it takes for a promotion to report success, however promotions interleave. */
module PromotionSuccess {
  import opened Wrappers
  import opened Promotion
  import opened Promotions

  /** Removing what is not there fails, and so does renaming what is not there or onto a
      directory with files: nothing changes, and the promotion gives up or tries to restore. */
  lemma BlockedOperations(d: Disk, phase: Phase, f: Fault)
    ensures phase == RemoveOld && d.backup == None ==> Operate(d, phase, f) == (d, Finished(false))
    ensures phase == MoveAside && (d.destination == None || !Replaceable(d.backup)) ==>
      Operate(d, phase, f) == (d, Finished(false))
    ensures phase == MoveIn && (d.staging == None || !Replaceable(d.destination)) ==>
      Operate(d, phase, f) == (d, CheckRestore)
    ensures phase == Restore && (d.backup == None || !Replaceable(d.destination)) ==>
      Operate(d, phase, f) == (d, Finished(false))
    ensures phase == RemoveLeftover && d.backup == None ==> Operate(d, phase, f) == (d, Finished(false))
  {
  }

  /** At event `n` the rename of job `j` puts its staged tree in place of nothing, or of an
      empty directory. */
  predicate MovesInAt(open: Phase -> bool, start: State, events: seq<Event>, n: nat, j: nat)
    requires n < |events|
  {
    var s, t := Before(open, start, events, n), Before(open, start, events, n + 1);
    && events[n].Advance? && events[n].job == j && j < |s.jobs| && j < |t.jobs|
    && s.jobs[j].phase == MoveIn && t.jobs[j].phase == CheckLeftover
    && s.jobs[j].staging.Some? && Replaceable(s.destination)
    && t.destination == s.jobs[j].staging && t.jobs[j].staging == None && t.backup == s.backup
  }

  /** At event `n` job `j` finds no backup left over, or removes it. */
  predicate CleansUpAt(open: Phase -> bool, start: State, events: seq<Event>, n: nat, j: nat)
    requires n < |events|
  {
    var s, t := Before(open, start, events, n), Before(open, start, events, n + 1);
    && events[n].Advance? && events[n].job == j && j < |s.jobs|
    && (s.jobs[j].phase == CheckLeftover || s.jobs[j].phase == RemoveLeftover)
    && t == s.(jobs := t.jobs, backup := None)
  }

  predicate MovedIn(phase: Phase) {
    phase == CheckLeftover || phase == RemoveLeftover || phase == Finished(true)
  }

  lemma JobMoves(open: Phase -> bool, start: State, events: seq<Event>, n: nat, j: nat)
    requires n < |events|
    ensures var s, t := Before(open, start, events, n), Before(open, start, events, n + 1);
      && |s.jobs| <= |t.jobs|
      && (j < |t.jobs| ==>
          var was := if j < |s.jobs| then s.jobs[j].phase else Start;
          && (MovedIn(t.jobs[j].phase) ==> MovedIn(was) || MovesInAt(open, start, events, n, j))
          && (t.jobs[j].phase == Finished(true) ==> was == Finished(true) || CleansUpAt(open, start, events, n, j)))
  {
    BeforeNext(open, start, events, n);
  }

  lemma {:induction false} SuccessTrail(open: Phase -> bool, start: State, events: seq<Event>, n: nat, j: nat)
    requires start.jobs == [] && n <= |events| && j < |Before(open, start, events, n).jobs|
    ensures var phase := Before(open, start, events, n).jobs[j].phase;
      && (MovedIn(phase) ==> exists m :: 0 <= m < n && MovesInAt(open, start, events, m, j))
      && (phase == Finished(true) ==>
          exists m, k :: 0 <= m < k < n && MovesInAt(open, start, events, m, j)
                         && CleansUpAt(open, start, events, k, j))
  {
    if n > 0 {
      JobMoves(open, start, events, n - 1, j);
      if j < |Before(open, start, events, n - 1).jobs| {
        SuccessTrail(open, start, events, n - 1, j);
      }
    }
  }

  /** On every run, a promotion that reports success has put its staged tree in place and has
      afterwards left no backup behind. */
  lemma SuccessMeans(open: Phase -> bool, start: State, events: seq<Event>, j: nat)
    requires start.jobs == [] && j < |Run(open, start, events).jobs|
    requires Run(open, start, events).jobs[j].phase == Finished(true)
    ensures exists m, k :: 0 <= m < k < |events| && MovesInAt(open, start, events, m, j)
                           && CleansUpAt(open, start, events, k, j)
  {
    assert events[..|events|] == events;
    SuccessTrail(open, start, events, |events|, j);
  }
}
