/** Moving a verified installation into place by renames, with rollback, when any file
    operation may fail. One promotion alone; `Promotions` is about several at once. */
module Promotion {
  import opened Wrappers
  import opened Machine

  datatype Tree = Tree(files: map<string, seq<byte>>)

  /** The staging, destination and backup directories, where absent means missing. */
  datatype Disk = Disk(staging: Option<Tree>, destination: Option<Tree>, backup: Option<Tree>)

  /** A failed recursive removal leaves the files it did not get to. */
  datatype Removal = Removed | RemoveFailed(left: set<string>)

  /** What each file operation would do if it were reached. */
  datatype Faults = Faults(
    createParent: bool,
    removeOldBackup: Removal,
    moveAside: bool,
    moveIn: bool,
    restore: bool,
    removeBackup: Removal)

  function Remnant(t: Tree, left: set<string>): Tree {
    Tree(map name | name in t.files && name in left :: t.files[name])
  }

  function AfterRemoval(dir: Option<Tree>, r: Removal): Option<Tree> {
    if dir.None? || r.Removed? then None else Some(Remnant(dir.value, r.left))
  }

  /** The disk and success of one promotion. */
  function Promote(d: Disk, f: Faults): (Disk, bool) {
    if !f.createParent then (d, false)
    else
      var cleared := d.(backup := AfterRemoval(d.backup, f.removeOldBackup));
      if d.backup.Some? && f.removeOldBackup.RemoveFailed? then (cleared, false)
      else if d.destination.Some? && !f.moveAside then (cleared, false)
      else
        var aside := if d.destination.Some? then Disk(d.staging, None, d.destination) else cleared;
        if !(f.moveIn && d.staging.Some?) then
          (if aside.backup.Some? && f.restore then Disk(d.staging, aside.backup, None) else aside, false)
        else
          (Disk(None, d.staging, AfterRemoval(aside.backup, f.removeBackup)),
           aside.backup.None? || f.removeBackup.Removed?)
  }

  /** The old installation is still whole somewhere, or the new one has replaced it. */
  predicate OldOrNew(before: Disk, now: Disk) {
    before.destination.Some? ==>
      || now.destination == before.destination
      || (before.staging.Some? && now.destination == before.staging)
      || now.backup == before.destination
  }

  /** The three directories of one managed tool. `history` lists the disk after every
      file operation, whether it succeeded or not. */
  class ToolDirectory {
    var staging: Option<Tree>
    var destination: Option<Tree>
    var backup: Option<Tree>
    ghost var history: seq<Disk>

    ghost function View(): Disk
      reads this
    {
      Disk(staging, destination, backup)
    }

    constructor (d: Disk)
      ensures View() == d && history == []
    {
      staging, destination, backup := d.staging, d.destination, d.backup;
      history := [];
    }

    ghost method Record()
      modifies this`history
      ensures history == old(history) + [View()]
    {
      history := history + [View()];
    }

    /** At every point of a promotion that has the directories to itself, the destination
        holds the old or the new tree, or the backup holds the old one. */
    method PromoteDirectory(f: Faults) returns (ok: bool)
      modifies this
      ensures (View(), ok) == Promote(old(View()), f)
      ensures |history| >= |old(history)|
      ensures forall i :: |old(history)| <= i < |history| ==> OldOrNew(old(View()), history[i])
      ensures OldOrNew(old(View()), View())
    {
      if !f.createParent {
        return false;
      }
      if backup.Some? {
        backup := AfterRemoval(backup, f.removeOldBackup);
        Record();
        if f.removeOldBackup.RemoveFailed? {
          return false;
        }
      }
      if destination.Some? {
        if !f.moveAside {
          return false;
        }
        backup, destination := destination, None;
        Record();
      }
      if !(f.moveIn && staging.Some?) {
        if backup.Some? && f.restore {
          destination, backup := backup, None;
          Record();
        }
        return false;
      }
      destination, staging := staging, None;
      Record();
      if backup.Some? {
        backup := AfterRemoval(backup, f.removeBackup);
        Record();
        if f.removeBackup.RemoveFailed? {
          return false;
        }
      }
      return true;
    }
  }

  /** What a promotion leaves, case by case. */
  lemma PromotionOutcome(d: Disk, f: Faults)
    ensures var (after, ok) := Promote(d, f);
      && OldOrNew(d, after)
      && (ok ==> d.staging.Some? && after == Disk(None, d.staging, None))
      && (!ok && after.destination != d.destination ==>
           || (after.destination.None? && after.backup == d.destination)
           || (d.staging.Some? && after.destination == d.staging)
           || (d.destination.None? && after.destination.Some?))
      && (after.staging == d.staging || (after.staging.None? && after.destination == d.staging))
  {
  }

  predicate SomeTree(d: Disk) {
    d.destination.Some? || d.backup.Some?
  }

  /** Some tree survives every possible failure exactly when the destination is present:
      with only a backup left, the promotion deletes that backup first. */
  lemma SurvivesExactlyFromDestination(d: Disk)
    ensures (forall f :: SomeTree(Promote(d, f).0)) <==> d.destination.Some?
  {
    if d.destination.None? {
      var f := Faults(true, Removed, true, false, true, Removed);
      assert !SomeTree(Promote(d, f).0);
    }
  }

  /** Two failing promotions can lose an installation that one never loses. */
  lemma RetryCanLoseInstallation(staged: Tree, installed: Tree)
    ensures var stuck := Promote(Disk(Some(staged), Some(installed), None),
                                 Faults(true, Removed, true, false, false, Removed)).0;
      && stuck == Disk(Some(staged), None, Some(installed))
      && Promote(stuck, Faults(true, Removed, true, false, true, Removed)).0 == Disk(Some(staged), None, None)
  {
  }

  /** Promotions one after the other, each with what its own install has staged. */
  function PromoteEach(d: Disk, staged: Option<Tree>, fs: seq<Faults>): Disk
    decreases |fs|
  {
    if fs == [] then d else PromoteEach(Promote(d.(staging := staged), fs[0]).0, staged, fs[1..])
  }

  lemma OnePromotion(d: Disk, staged: Option<Tree>, f: Faults)
    ensures PromoteEach(d, staged, [f]) == Promote(d.(staging := staged), f).0
  {
  }

  /** From an installation in place, some tree survives `n` promotions in a row, whatever
      they stage and whatever fails, exactly when `n` is at most one. */
  lemma SurvivesOneRetryExactly(n: nat)
    ensures (forall d: Disk, staged, fs: seq<Faults> :: d.destination.Some? && |fs| == n ==>
              SomeTree(PromoteEach(d, staged, fs))) <==> n <= 1
  {
    if n <= 1 {
      forall d: Disk, staged, fs: seq<Faults> | d.destination.Some? && |fs| == n
        ensures SomeTree(PromoteEach(d, staged, fs))
      {
        if n == 1 {
          OnePromotion(d, staged, fs[0]);
          SurvivesExactlyFromDestination(d.(staging := staged));
          assert fs == [fs[0]];
        }
      }
    } else {
      var t := Some(Tree(map[]));
      var lost := Faults(true, Removed, true, false, false, Removed);
      var fs := seq(n, i => lost);
      LosesAll(t, n);
      assert !SomeTree(PromoteEach(Disk(t, t, None), t, fs));
    }
  }

  /** Promotions that can neither move in nor restore lose an installation from the second on. */
  lemma LosesAll(t: Option<Tree>, n: nat)
    requires t.Some? && n >= 2
    ensures var lost := Faults(true, Removed, true, false, false, Removed);
      !SomeTree(PromoteEach(Disk(t, t, None), t, seq(n, i => lost)))
  {
    var lost := Faults(true, Removed, true, false, false, Removed);
    var fs := seq(n, i => lost);
    assert fs[1..] == seq(n - 1, i => lost) && fs[1..][1..] == seq(n - 2, i => lost);
    assert Promote(Disk(t, t, None), lost).0 == Disk(t, None, t);
    assert Promote(Disk(t, None, t), lost).0 == Disk(t, None, None);
    NothingReturns(t, n - 2);
  }

  lemma {:induction false} NothingReturns(t: Option<Tree>, n: nat)
    requires t.Some?
    ensures var lost := Faults(true, Removed, true, false, false, Removed);
      !SomeTree(PromoteEach(Disk(t, None, None), t, seq(n, i => lost)))
  {
    var lost := Faults(true, Removed, true, false, false, Removed);
    if n > 0 {
      assert seq(n, i => lost)[1..] == seq(n - 1, i => lost);
      assert Promote(Disk(t, None, None), lost).0 == Disk(t, None, None);
      NothingReturns(t, n - 1);
    }
  }

  // ----- the same promotion, one file operation at a time

  /** The next file operation of a promotion. */
  datatype Phase =
    | Start
    | CheckBackup
    | RemoveOld
    | CheckDestination
    | MoveAside
    | MoveIn
    | CheckRestore
    | Restore
    | CheckLeftover
    | RemoveLeftover
    | Finished(ok: bool)

  /** Whether the operation would work, and what a failing removal would leave. */
  datatype Fault = Fault(works: bool, left: set<string>)

  /** A directory may be renamed onto a missing or empty one. */
  predicate Replaceable(dir: Option<Tree>) {
    dir.None? || dir.value.files == map[]
  }

  /** One file operation. The directories may have changed since the last one: removing or
      renaming what is no longer there fails. */
  function Operate(d: Disk, phase: Phase, f: Fault): (Disk, Phase) {
    match phase
    case Start => (d, if f.works then CheckBackup else Finished(false))
    case CheckBackup => (d, if d.backup.Some? then RemoveOld else CheckDestination)
    case RemoveOld =>
      if d.backup.None? then (d, Finished(false))
      else if f.works then (d.(backup := None), CheckDestination)
      else (d.(backup := Some(Remnant(d.backup.value, f.left))), Finished(false))
    case CheckDestination => (d, if d.destination.Some? then MoveAside else MoveIn)
    case MoveAside =>
      if f.works && d.destination.Some? && Replaceable(d.backup)
      then (d.(destination := None, backup := d.destination), MoveIn) else (d, Finished(false))
    case MoveIn =>
      if f.works && d.staging.Some? && Replaceable(d.destination)
      then (d.(staging := None, destination := d.staging), CheckLeftover) else (d, CheckRestore)
    case CheckRestore => (d, if d.backup.Some? then Restore else Finished(false))
    case Restore =>
      if f.works && d.backup.Some? && Replaceable(d.destination)
      then (d.(destination := d.backup, backup := None), Finished(false)) else (d, Finished(false))
    case CheckLeftover => (d, if d.backup.Some? then RemoveLeftover else Finished(true))
    case RemoveLeftover =>
      if d.backup.None? then (d, Finished(false))
      else if f.works then (d.(backup := None), Finished(true))
      else (d.(backup := Some(Remnant(d.backup.value, f.left))), Finished(false))
    case Finished(_) => (d, phase)
  }

  function Remaining(phase: Phase): nat {
    match phase
    case Start => 9
    case CheckBackup => 8
    case RemoveOld => 7
    case CheckDestination => 6
    case MoveAside => 5
    case MoveIn => 4
    case CheckRestore => 3
    case Restore => 2
    case CheckLeftover => 3
    case RemoveLeftover => 2
    case Finished(_) => 0
  }

  /** The fault of each operation, as one pattern for the whole promotion lists them. */
  function FaultOf(f: Faults, phase: Phase): Fault {
    match phase
    case Start => Fault(f.createParent, {})
    case RemoveOld => RemovalFault(f.removeOldBackup)
    case MoveAside => Fault(f.moveAside, {})
    case MoveIn => Fault(f.moveIn, {})
    case Restore => Fault(f.restore, {})
    case RemoveLeftover => RemovalFault(f.removeBackup)
    case _ => Fault(true, {})
  }

  function RemovalFault(r: Removal): Fault {
    if r.Removed? then Fault(true, {}) else Fault(false, r.left)
  }

  /** The operations from `phase` to the end, with nothing in between. */
  function Finish(d: Disk, phase: Phase, f: Faults): (Disk, bool)
    decreases Remaining(phase)
  {
    if phase.Finished? then (d, phase.ok)
    else
      var (after, next) := Operate(d, phase, FaultOf(f, phase));
      Finish(after, next, f)
  }

  lemma FinishMoveIn(d: Disk, f: Faults)
    requires d.destination.None?
    ensures Finish(d, MoveIn, f) ==
      if !(f.moveIn && d.staging.Some?) then
        (if d.backup.Some? && f.restore then Disk(d.staging, d.backup, None) else d, false)
      else
        (Disk(None, d.staging, AfterRemoval(d.backup, f.removeBackup)), d.backup.None? || f.removeBackup.Removed?)
  {
    var (after, next) := Operate(d, MoveIn, FaultOf(f, MoveIn));
    if next == CheckRestore {
      var (checked, onward) := Operate(after, CheckRestore, FaultOf(f, CheckRestore));
      assert Finish(after, CheckRestore, f) == Finish(checked, onward, f);
    } else {
      var (checked, onward) := Operate(after, CheckLeftover, FaultOf(f, CheckLeftover));
      assert Finish(after, CheckLeftover, f) == Finish(checked, onward, f);
    }
  }

  lemma FinishCheckDestination(d: Disk, f: Faults)
    requires d.backup.None?
    ensures Finish(d, CheckDestination, f) ==
      if d.destination.Some? && !f.moveAside then (d, false)
      else Finish(if d.destination.Some? then Disk(d.staging, None, d.destination) else d, MoveIn, f)
  {
    var (checked, next) := Operate(d, CheckDestination, FaultOf(f, CheckDestination));
    assert Finish(d, CheckDestination, f) == Finish(checked, next, f);
  }

  /** Run without interruption, the single operations are exactly the promotion above. */
  lemma SoloRunIsPromote(d: Disk, f: Faults)
    ensures Finish(d, Start, f) == Promote(d, f)
  {
    if f.createParent {
      var (checked, next) := Operate(d, CheckBackup, FaultOf(f, CheckBackup));
      assert Finish(d, Start, f) == Finish(d, CheckBackup, f) == Finish(checked, next, f);
      var cleared := d.(backup := None);
      if d.backup.None? || f.removeOldBackup.Removed? {
        assert Finish(checked, next, f) == Finish(cleared, CheckDestination, f);
        FinishCheckDestination(cleared, f);
        FinishMoveIn(if d.destination.Some? then Disk(d.staging, None, d.destination) else cleared, f);
      } else {
        var (after, end) := Operate(d, RemoveOld, FaultOf(f, RemoveOld));
        assert Finish(d, RemoveOld, f) == Finish(after, end, f);
      }
    }
  }
}
