/** Optimistic saving of one editable file: the fingerprint the editor opened is compared
    when the save starts and again just before the file is replaced. Other programs, and
    other saves, may write the file between any two steps. */
module DocumentSave {
  import opened Wrappers
  import opened Bytes
  import opened Machine

  const MAX_EDITABLE_FILE_BYTES: nat := 512 * 1024

  /** SHA-256 as a free injection of the content; other strings match no content. */
  datatype Fingerprint = Sha(content: seq<byte>) | OtherHex(text: string) | Malformed(text: string)

  /** `ReportFailed` is an error returned after the file was replaced, when syncing the
      directory or reading the document back fails; `WriteFailed` is one before that. */
  datatype Outcome = Invalid | Stale | Unchanged | Saved | WriteFailed | ReportFailed

  datatype Phase =
    | Started
    | Prepared     // the temporary file holds the content
    | Rechecked    // about to rename the temporary file into place
    | Ended(outcome: Outcome)

  datatype Save = Save(content: seq<byte>, expected: Fingerprint, phase: Phase)

  datatype State = State(disk: seq<byte>, saves: seq<Save>)

  datatype Event =
    | External(bytes: seq<byte>)
    | Begin(content: seq<byte>, expected: Fingerprint)
    | ReadCurrent(save: nat)
    | Recheck(save: nat, prepared: bool)
    | Persist(save: nat, renamed: bool, reported: bool)

  predicate Savable(content: seq<byte>) {
    |content| <= MAX_EDITABLE_FILE_BYTES && 0 !in content
  }

  predicate Editable(disk: seq<byte>) {
    |disk| <= MAX_EDITABLE_FILE_BYTES && ValidUtf8(disk) && 0 !in disk
  }

  function Goto(s: State, k: nat, phase: Phase): State
    requires k < |s.saves|
  {
    s.(saves := s.saves[k := s.saves[k].(phase := phase)])
  }

  function Replace(s: State, k: nat, renamed: bool, reported: bool): State
    requires k < |s.saves|
  {
    if !renamed then Goto(s, k, Ended(WriteFailed))
    else Goto(s.(disk := s.saves[k].content), k, Ended(if reported then Saved else ReportFailed))
  }

  /** The save has replaced the file, whatever it told its caller. */
  predicate Replaced(phase: Phase) {
    phase == Ended(Saved) || phase == Ended(ReportFailed)
  }

  predicate At(s: State, k: nat, phase: Phase) {
    k < |s.saves| && s.saves[k].phase == phase
  }

  /** `joined` makes the second comparison and the rename one step; in the program they
      are two, so `joined` is false of it. */
  function Step(joined: bool, s: State, e: Event): State {
    match e
    case External(bytes) => s.(disk := bytes)
    case Begin(content, expected) =>
      s.(saves := s.saves + [Save(content, expected, if Savable(content) then Started else Ended(Invalid))])
    case ReadCurrent(k) =>
      if !At(s, k, Started) then s
      else if !Editable(s.disk) then Goto(s, k, Ended(Invalid))
      else if s.saves[k].expected != Sha(s.disk) then Goto(s, k, Ended(Stale))
      else if s.saves[k].content == s.disk then Goto(s, k, Ended(Unchanged))
      else Goto(s, k, Prepared)
    case Recheck(k, prepared) =>
      if !At(s, k, Prepared) then s
      else if !prepared then Goto(s, k, Ended(WriteFailed))
      else if Sha(s.disk) != s.saves[k].expected then Goto(s, k, Ended(Stale))
      else if joined then Replace(s, k, true, true)
      else Goto(s, k, Rechecked)
    case Persist(k, renamed, reported) =>
      if At(s, k, Rechecked) then Replace(s, k, renamed, reported) else s
  }

  function Run(joined: bool, disk: seq<byte>, events: seq<Event>): State {
    if events == [] then State(disk, [])
    else Step(joined, Run(joined, disk, events[..|events| - 1]), events[|events| - 1])
  }

  /** The state before event `i` of a run. */
  function Before(joined: bool, disk: seq<byte>, events: seq<Event>, i: nat): State
    requires i <= |events|
  {
    Run(joined, disk, events[..i])
  }

  lemma BeforeNext(joined: bool, disk: seq<byte>, events: seq<Event>, i: nat)
    requires i < |events|
    ensures Before(joined, disk, events, i + 1) == Step(joined, Before(joined, disk, events, i), events[i])
  {
    assert events[..i + 1][..i] == events[..i];
  }

  /** Event `i` is the moment save `k` replaces the file. */
  predicate ReplacesAt(joined: bool, disk: seq<byte>, events: seq<Event>, i: nat, k: nat)
    requires i < |events|
  {
    var s := Before(joined, disk, events, i);
    var t := Step(joined, s, events[i]);
    k < |s.saves| && !s.saves[k].phase.Ended? && k < |t.saves| && Replaced(t.saves[k].phase)
  }

  // ----- writes before the second comparison are safe

  /** A save that is past its first comparison expects some content other than its own. */
  predicate Wellformed(s: State) {
    forall k :: 0 <= k < |s.saves| && (s.saves[k].phase in {Prepared, Rechecked} || Replaced(s.saves[k].phase)) ==>
      s.saves[k].expected.Sha? && s.saves[k].content != s.saves[k].expected.content
  }

  lemma StepWellformed(joined: bool, s: State, e: Event)
    requires Wellformed(s)
    ensures Wellformed(Step(joined, s, e))
  {
  }

  lemma {:induction false} RunWellformed(joined: bool, disk: seq<byte>, events: seq<Event>)
    ensures Wellformed(Run(joined, disk, events))
  {
    if events != [] {
      RunWellformed(joined, disk, events[..|events| - 1]);
      StepWellformed(joined, Run(joined, disk, events[..|events| - 1]), events[|events| - 1]);
    }
  }

  lemma {:induction false} EndedStays(joined: bool, disk: seq<byte>, events: seq<Event>, n: nat, m: nat, k: nat)
    requires n <= m <= |events|
    requires k < |Before(joined, disk, events, n).saves| && Before(joined, disk, events, n).saves[k].phase.Ended?
    ensures k < |Before(joined, disk, events, m).saves|
    ensures Before(joined, disk, events, m).saves[k] == Before(joined, disk, events, n).saves[k]
  {
    if n < m {
      EndedStays(joined, disk, events, n, m - 1, k);
      BeforeNext(joined, disk, events, m - 1);
    }
  }

  /** A write that lands before the second comparison, leaving content other than the
      editor opened, is not overwritten: that step leaves the disk unchanged, and at no
      step of the run, before it or after, does the save replace the file. */
  lemma EarlierWriteSurvives(joined: bool, disk: seq<byte>, events: seq<Event>, i: nat, k: nat, j: nat)
    requires i < |events| && j < |events| && events[i].Recheck? && events[i].save == k
    requires At(Before(joined, disk, events, i), k, Prepared)
    requires Before(joined, disk, events, i).saves[k].expected != Sha(Before(joined, disk, events, i).disk)
    ensures Before(joined, disk, events, i + 1).disk == Before(joined, disk, events, i).disk
    ensures !ReplacesAt(joined, disk, events, j, k)
  {
    BeforeNext(joined, disk, events, i);
    BeforeNext(joined, disk, events, j);
    if j < i && ReplacesAt(joined, disk, events, j, k) {
      EndedStays(joined, disk, events, j + 1, i, k);
    } else if i < j {
      EndedStays(joined, disk, events, i + 1, j, k);
    }
  }

  function PastRecheck(): set<Phase> {
    {Rechecked, Ended(Saved), Ended(ReportFailed)}
  }

  /** Every save that replaced the file, or is about to, found the opened content on disk
      at its second comparison, however the steps of other programs fall. */
  lemma {:induction false} ReplacedWhatItOpened(joined: bool, disk: seq<byte>, events: seq<Event>, k: nat)
    returns (m: nat)
    requires k < |Run(joined, disk, events).saves|
    requires Run(joined, disk, events).saves[k].phase in PastRecheck()
    ensures m < |events| && events[m] == Recheck(k, true)
    ensures At(Before(joined, disk, events, m), k, Prepared)
    ensures Sha(Before(joined, disk, events, m).disk) == Run(joined, disk, events).saves[k].expected
    ensures Before(joined, disk, events, m).saves[k].expected == Run(joined, disk, events).saves[k].expected
  {
    var n := |events| - 1;
    var earlier := events[..n];
    if k < |Run(joined, disk, earlier).saves| && Run(joined, disk, earlier).saves[k].phase in PastRecheck() {
      m := ReplacedWhatItOpened(joined, disk, earlier, k);
      assert earlier[..m] == events[..m];
    } else {
      m := n;
    }
  }

  /** A replacement installs the save's own content, never what it expected to find. */
  lemma ReplacementIsNew(joined: bool, disk: seq<byte>, events: seq<Event>, i: nat, k: nat)
    requires i < |events| && ReplacesAt(joined, disk, events, i, k)
    ensures var s := Before(joined, disk, events, i);
      && s.saves[k].expected.Sha?
      && Before(joined, disk, events, i + 1).disk == s.saves[k].content != s.saves[k].expected.content
  {
    RunWellformed(joined, disk, events[..i + 1]);
    BeforeNext(joined, disk, events, i);
  }

  /** The disk changes only by writes of others and by replacements, so a save that ends
      as stale, invalid, unchanged or failed to write has changed nothing. */
  lemma OnlyReplacingWrites(joined: bool, disk: seq<byte>, events: seq<Event>, i: nat)
    requires i < |events| && !events[i].External?
    requires Before(joined, disk, events, i + 1).disk != Before(joined, disk, events, i).disk
    ensures exists k: nat :: ReplacesAt(joined, disk, events, i, k)
  {
    BeforeNext(joined, disk, events, i);
    assert ReplacesAt(joined, disk, events, i, events[i].save);
  }

  /** The replaced content is not the one the editor opened. */
  predicate LosesUpdate(joined: bool, disk: seq<byte>, events: seq<Event>, i: nat, k: nat)
    requires i < |events|
  {
    ReplacesAt(joined, disk, events, i, k)
    && Sha(Before(joined, disk, events, i).disk) != Before(joined, disk, events, i).saves[k].expected
  }

  /** An update is lost exactly when the disk changed between the second comparison and
      the rename. */
  lemma LostExactlyWhenChangedLate(joined: bool, disk: seq<byte>, events: seq<Event>, i: nat, k: nat) returns (m: nat)
    requires i < |events| && ReplacesAt(joined, disk, events, i, k)
    ensures m <= i && events[m] == Recheck(k, true) && At(Before(joined, disk, events, m), k, Prepared)
    ensures LosesUpdate(joined, disk, events, i, k) <==>
      Before(joined, disk, events, m).disk != Before(joined, disk, events, i).disk
  {
    BeforeNext(joined, disk, events, i);
    m := ReplacedWhatItOpened(joined, disk, events[..i + 1], k);
    assert events[..i + 1][..m] == events[..m];
    assert Before(joined, disk, events, i + 1).saves[k].expected == Before(joined, disk, events, i).saves[k].expected;
  }

  lemma JoinedNeverLoses(disk: seq<byte>, events: seq<Event>, i: nat, k: nat)
    requires i < |events|
    ensures !LosesUpdate(true, disk, events, i, k)
  {
    NeverRechecked(disk, events[..i]);
  }

  lemma {:induction false} NeverRechecked(disk: seq<byte>, events: seq<Event>)
    ensures forall k :: 0 <= k < |Run(true, disk, events).saves| ==> Run(true, disk, events).saves[k].phase != Rechecked
  {
    if events != [] {
      NeverRechecked(disk, events[..|events| - 1]);
    }
  }

  /** A write between the comparison and the rename is overwritten unseen. */
  function LateWrite(): seq<Event> {
    [Begin([1], Sha([])), ReadCurrent(0), Recheck(0, true), External([2]), Persist(0, true, true)]
  }

  lemma LateWriteIsLost()
    ensures LosesUpdate(false, [], LateWrite(), 4, 0)
  {
    var w := LateWrite();
    assert w[..0] == [];
    BeforeNext(false, [], w, 0);
    assert Before(false, [], w, 1) == State([], [Save([1], Sha([]), Started)]);
    BeforeNext(false, [], w, 1);
    assert Before(false, [], w, 2) == State([], [Save([1], Sha([]), Prepared)]);
    BeforeNext(false, [], w, 2);
    assert Before(false, [], w, 3) == State([], [Save([1], Sha([]), Rechecked)]);
    BeforeNext(false, [], w, 3);
    assert Before(false, [], w, 4) == State([2], [Save([1], Sha([]), Rechecked)]);
  }

  /** No run loses an update exactly when the comparison and the rename are one step. */
  lemma SafeExactlyWhenJoined(joined: bool)
    ensures (forall disk, events, i: nat, k: nat :: i < |events| ==> !LosesUpdate(joined, disk, events, i, k)) <==>
      joined
  {
    if joined {
      forall disk, events, i: nat, k: nat | i < |events|
        ensures !LosesUpdate(joined, disk, events, i, k)
      {
        JoinedNeverLoses(disk, events, i, k);
      }
    } else {
      LateWriteIsLost();
      assert LosesUpdate(joined, [], LateWrite(), 4, 0);
    }
  }

  /** Step `m` puts the content back. */
  predicate RestoresAt(joined: bool, disk: seq<byte>, events: seq<Event>, m: nat, content: seq<byte>)
    requires m < |events|
  {
    Before(joined, disk, events, m).disk != content && Before(joined, disk, events, m + 1).disk == content
  }

  lemma {:induction false} ContentReturns(joined: bool, disk: seq<byte>, events: seq<Event>, i: nat, j: nat,
                                          content: seq<byte>)
    returns (m: nat)
    requires i <= j <= |events|
    requires Before(joined, disk, events, i).disk != content && Before(joined, disk, events, j).disk == content
    ensures i <= m < j && RestoresAt(joined, disk, events, m, content)
  {
    if Before(joined, disk, events, j - 1).disk != content {
      m := j - 1;
    } else {
      m := ContentReturns(joined, disk, events, i, j - 1, content);
    }
  }

  /** Two changed saves carrying the same fingerprint need that content restored in
      between, unless the second of them loses an update. */
  lemma SameFingerprintNeedsRestore(joined: bool, disk: seq<byte>, events: seq<Event>, i: nat, j: nat, k: nat, l: nat)
    returns (m: nat)
    requires i < j < |events|
    requires ReplacesAt(joined, disk, events, i, k) && ReplacesAt(joined, disk, events, j, l)
    requires Before(joined, disk, events, i).saves[k].expected == Before(joined, disk, events, j).saves[l].expected
    requires !LosesUpdate(joined, disk, events, j, l)
    ensures i < m < j
    ensures Before(joined, disk, events, i).saves[k].expected.Sha?
    ensures RestoresAt(joined, disk, events, m, Before(joined, disk, events, i).saves[k].expected.content)
  {
    ReplacementIsNew(joined, disk, events, i, k);
    m := ContentReturns(joined, disk, events, i + 1, j, Before(joined, disk, events, i).saves[k].expected.content);
  }

  /** Two saves that both compare before either renames. */
  function TwoAtOnce(): seq<Event> {
    [Begin([1], Sha([])), Begin([2], Sha([])), ReadCurrent(0), ReadCurrent(1), Recheck(0, true), Recheck(1, true),
     Persist(0, true, true), Persist(1, true, true)]
  }

  /** They both replace the file on one fingerprint, with no event between that could
      restore it, and the first save's content is lost. */
  lemma TwoSavesOneFingerprint()
    ensures ReplacesAt(false, [], TwoAtOnce(), 6, 0) && ReplacesAt(false, [], TwoAtOnce(), 7, 1)
    ensures Before(false, [], TwoAtOnce(), 6).saves[0].expected == Before(false, [], TwoAtOnce(), 7).saves[1].expected
    ensures LosesUpdate(false, [], TwoAtOnce(), 7, 1)
  {
    var w := TwoAtOnce();
    var a, b := Save([1], Sha([]), Started), Save([2], Sha([]), Started);
    assert w[..0] == [];
    BeforeNext(false, [], w, 0);
    BeforeNext(false, [], w, 1);
    assert Before(false, [], w, 2) == State([], [a, b]);
    BeforeNext(false, [], w, 2);
    BeforeNext(false, [], w, 3);
    assert Before(false, [], w, 4) == State([], [a.(phase := Prepared), b.(phase := Prepared)]);
    BeforeNext(false, [], w, 4);
    BeforeNext(false, [], w, 5);
    assert Before(false, [], w, 6) == State([], [a.(phase := Rechecked), b.(phase := Rechecked)]);
    BeforeNext(false, [], w, 6);
    assert Before(false, [], w, 7) == State([1], [a.(phase := Ended(Saved)), b.(phase := Rechecked)]);
  }

  /** The second comparison of save `k`, which it passes. */
  predicate AcceptedAt(joined: bool, disk: seq<byte>, events: seq<Event>, r: nat, k: nat)
    requires r < |events|
  {
    var s := Before(joined, disk, events, r);
    events[r] == Recheck(k, true) && At(s, k, Prepared) && Sha(s.disk) == s.saves[k].expected
  }

  /** Step `m`, strictly between `i` and `j`, puts the content back. */
  predicate RestoredBetween(joined: bool, disk: seq<byte>, events: seq<Event>, i: nat, j: nat, content: seq<byte>)
    requires j <= |events|
  {
    exists m :: i < m < j && RestoresAt(joined, disk, events, m, content)
  }

  /** Two changed saves on one fingerprint have its content put back between them. */
  predicate NeedsRestore(joined: bool, disk: seq<byte>, events: seq<Event>, i: nat, j: nat, k: nat, l: nat)
    requires i < j < |events|
  {
    var s, t := Before(joined, disk, events, i), Before(joined, disk, events, j);
    ReplacesAt(joined, disk, events, i, k) && ReplacesAt(joined, disk, events, j, l)
    && s.saves[k].expected == t.saves[l].expected && s.saves[k].expected.Sha? ==>
      RestoredBetween(joined, disk, events, i, j, s.saves[k].expected.content)
  }

  /** Event `m` writes the content: another program does, or a save that replaces the file. */
  predicate WritesAt(joined: bool, disk: seq<byte>, events: seq<Event>, m: nat, content: seq<byte>)
    requires m < |events|
  {
    || events[m] == External(content)
    || exists q :: 0 <= q < |Before(joined, disk, events, m).saves|
         && ReplacesAt(joined, disk, events, m, q) && Before(joined, disk, events, m).saves[q].content == content
  }

  predicate WrittenBetween(joined: bool, disk: seq<byte>, events: seq<Event>, i: nat, j: nat, content: seq<byte>)
    requires j <= |events|
  {
    exists m :: i < m < j && WritesAt(joined, disk, events, m, content)
  }

  lemma WriteLands(joined: bool, disk: seq<byte>, events: seq<Event>, m: nat, content: seq<byte>)
    requires m < |events| && WritesAt(joined, disk, events, m, content)
    ensures Before(joined, disk, events, m + 1).disk == content
  {
    BeforeNext(joined, disk, events, m);
    if events[m] != External(content) {
      var q :| 0 <= q < |Before(joined, disk, events, m).saves|
        && ReplacesAt(joined, disk, events, m, q) && Before(joined, disk, events, m).saves[q].content == content;
      ReplacementIsNew(joined, disk, events, m, q);
    }
  }

  lemma RestoringWrites(joined: bool, disk: seq<byte>, events: seq<Event>, m: nat, content: seq<byte>)
    requires m < |events| && RestoresAt(joined, disk, events, m, content)
    ensures WritesAt(joined, disk, events, m, content)
  {
    BeforeNext(joined, disk, events, m);
    if !events[m].External? {
      OnlyReplacingWrites(joined, disk, events, m);
      var q: nat :| ReplacesAt(joined, disk, events, m, q);
      ReplacementIsNew(joined, disk, events, m, q);
    }
  }

  lemma RestoredIsWritten(joined: bool, disk: seq<byte>, events: seq<Event>, i: nat, j: nat, content: seq<byte>)
    requires j <= |events| && RestoredBetween(joined, disk, events, i, j, content)
    ensures WrittenBetween(joined, disk, events, i, j, content)
  {
    var m :| i < m < j && RestoresAt(joined, disk, events, m, content);
    RestoringWrites(joined, disk, events, m, content);
  }

  lemma WrittenIsRestored(joined: bool, disk: seq<byte>, events: seq<Event>, i: nat, j: nat, content: seq<byte>)
    requires i < j <= |events| && WrittenBetween(joined, disk, events, i, j, content)
    requires Before(joined, disk, events, i + 1).disk != content
    ensures RestoredBetween(joined, disk, events, i, j, content)
  {
    var m :| i < m < j && WritesAt(joined, disk, events, m, content);
    WriteLands(joined, disk, events, m, content);
    var r := ContentReturns(joined, disk, events, i + 1, m + 1, content);
  }

  /** Save `k` replaces the file at event `i`, and save `l`, which passes its second comparison
      at event `r`, replaces it at event `j` on the same fingerprint. */
  predicate SameFingerprintSaves(joined: bool, disk: seq<byte>, events: seq<Event>,
                                 i: nat, r: nat, j: nat, k: nat, l: nat)
    requires i < j < |events| && r < j
  {
    && ReplacesAt(joined, disk, events, i, k) && ReplacesAt(joined, disk, events, j, l)
    && AcceptedAt(joined, disk, events, r, l)
    && Before(joined, disk, events, i).saves[k].expected == Before(joined, disk, events, r).saves[l].expected
  }

  /** Two such saves have the content put back between their replacements exactly when the
      second one compares after the first replaces, or somebody writes that content in
      between. The violating runs compare before, with no such write. */
  lemma RestoredExactly(joined: bool, disk: seq<byte>, events: seq<Event>, i: nat, r: nat, j: nat, k: nat, l: nat)
    requires i < j < |events| && r < j && SameFingerprintSaves(joined, disk, events, i, r, j, k, l)
    ensures var content := Before(joined, disk, events, r).disk;
      RestoredBetween(joined, disk, events, i, j, content) <==>
        i < r || WrittenBetween(joined, disk, events, i, j, content)
  {
    var content := Before(joined, disk, events, r).disk;
    ReplacementIsNew(joined, disk, events, i, k);
    if i < r {
      var m := ContentReturns(joined, disk, events, i + 1, r, content);
    }
    if RestoredBetween(joined, disk, events, i, j, content) {
      RestoredIsWritten(joined, disk, events, i, j, content);
    } else if WrittenBetween(joined, disk, events, i, j, content) {
      WrittenIsRestored(joined, disk, events, i, j, content);
    }
  }

  lemma JoinedNeedsRestore(disk: seq<byte>, events: seq<Event>, i: nat, j: nat, k: nat, l: nat)
    requires i < j < |events|
    ensures NeedsRestore(true, disk, events, i, j, k, l)
  {
    var s, t := Before(true, disk, events, i), Before(true, disk, events, j);
    if ReplacesAt(true, disk, events, i, k) && ReplacesAt(true, disk, events, j, l)
       && s.saves[k].expected == t.saves[l].expected {
      JoinedNeverLoses(disk, events, j, l);
      var m := SameFingerprintNeedsRestore(true, disk, events, i, j, k, l);
    }
  }

  /** On every run, two changed saves carrying the same fingerprint need that content restored
      between them, exactly when the comparison and the rename are one step. */
  lemma NeedsRestoreExactlyWhenJoined(joined: bool)
    ensures (forall disk, events, i: nat, j: nat, k: nat, l: nat :: i < j < |events| ==>
              NeedsRestore(joined, disk, events, i, j, k, l)) <==> joined
  {
    if joined {
      forall disk, events, i: nat, j: nat, k: nat, l: nat | i < j < |events|
        ensures NeedsRestore(joined, disk, events, i, j, k, l)
      {
        JoinedNeedsRestore(disk, events, i, j, k, l);
      }
    } else {
      TwoSavesOneFingerprint();
      ReplacementIsNew(joined, [], TwoAtOnce(), 6, 0);
      assert !NeedsRestore(joined, [], TwoAtOnce(), 6, 7, 0, 1);
    }
  }

  // ----- what a save's outcome says about the file

  predicate ReplacedUpTo(joined: bool, disk: seq<byte>, events: seq<Event>, n: nat, k: nat)
    requires n <= |events|
  {
    exists i :: 0 <= i < n && ReplacesAt(joined, disk, events, i, k)
  }

  lemma ReplacedNext(joined: bool, disk: seq<byte>, events: seq<Event>, n: nat, k: nat)
    requires n < |events|
    ensures ReplacedUpTo(joined, disk, events, n + 1, k) <==>
      ReplacedUpTo(joined, disk, events, n, k) || ReplacesAt(joined, disk, events, n, k)
  {
  }

  lemma PhaseReplacedNext(joined: bool, disk: seq<byte>, events: seq<Event>, n: nat, k: nat)
    requires n < |events|
    ensures var s, t := Before(joined, disk, events, n), Before(joined, disk, events, n + 1);
      k < |t.saves| && Replaced(t.saves[k].phase) <==>
        (k < |s.saves| && Replaced(s.saves[k].phase)) || ReplacesAt(joined, disk, events, n, k)
  {
    BeforeNext(joined, disk, events, n);
  }

  lemma {:induction false} ReplacedUpToNow(joined: bool, disk: seq<byte>, events: seq<Event>, n: nat, k: nat)
    requires n <= |events|
    ensures ReplacedUpTo(joined, disk, events, n, k) <==>
      k < |Before(joined, disk, events, n).saves| && Replaced(Before(joined, disk, events, n).saves[k].phase)
  {
    if n > 0 {
      ReplacedUpToNow(joined, disk, events, n - 1, k);
      ReplacedNext(joined, disk, events, n - 1, k);
      PhaseReplacedNext(joined, disk, events, n - 1, k);
    }
  }

  /** At event `i` the rename of save `k` works and what follows it fails. */
  predicate FailsAfterRename(joined: bool, disk: seq<byte>, events: seq<Event>, i: nat, k: nat)
    requires i < |events|
  {
    events[i] == Persist(k, true, false) && At(Before(joined, disk, events, i), k, Rechecked)
  }

  lemma FailsNext(joined: bool, disk: seq<byte>, events: seq<Event>, n: nat, k: nat)
    requires n < |events|
    ensures At(Before(joined, disk, events, n + 1), k, Ended(ReportFailed)) <==>
      At(Before(joined, disk, events, n), k, Ended(ReportFailed)) || FailsAfterRename(joined, disk, events, n, k)
  {
    BeforeNext(joined, disk, events, n);
  }

  lemma {:induction false} FailsUpToNow(joined: bool, disk: seq<byte>, events: seq<Event>, n: nat, k: nat)
    requires n <= |events|
    ensures (exists i :: 0 <= i < n && FailsAfterRename(joined, disk, events, i, k)) <==>
      At(Before(joined, disk, events, n), k, Ended(ReportFailed))
  {
    if n > 0 {
      FailsUpToNow(joined, disk, events, n - 1, k);
      FailsNext(joined, disk, events, n - 1, k);
      assert (exists i :: 0 <= i < n && FailsAfterRename(joined, disk, events, i, k)) <==>
        (exists i :: 0 <= i < n - 1 && FailsAfterRename(joined, disk, events, i, k))
        || FailsAfterRename(joined, disk, events, n - 1, k);
    }
  }

  /** On every run, a save that ended with an error has replaced the file nevertheless exactly
      when its rename worked and then syncing the directory or reading the document back
      failed. */
  lemma ErrorHidesReplacementExactly(joined: bool, disk: seq<byte>, events: seq<Event>, k: nat)
    requires k < |Run(joined, disk, events).saves|
    requires Run(joined, disk, events).saves[k].phase.Ended?
    requires Run(joined, disk, events).saves[k].phase.outcome !in {Saved, Unchanged}
    ensures (exists i :: 0 <= i < |events| && ReplacesAt(joined, disk, events, i, k)) <==>
      (exists i :: 0 <= i < |events| && FailsAfterRename(joined, disk, events, i, k))
  {
    ReplacedUpToNow(joined, disk, events, |events|, k);
    FailsUpToNow(joined, disk, events, |events|, k);
    assert events[..|events|] == events;
  }

  /** The save replaces the file and then cannot report it. */
  function Unreported(): seq<Event> {
    [Begin([1], Sha([])), ReadCurrent(0), Recheck(0, true), Persist(0, true, false)]
  }

  lemma ErrorAfterReplacement()
    ensures Run(false, [], Unreported()) == State([1], [Save([1], Sha([]), Ended(ReportFailed))])
  {
    var w := Unreported();
    assert w[..0] == [] && w[..4] == w;
    BeforeNext(false, [], w, 0);
    BeforeNext(false, [], w, 1);
    assert Before(false, [], w, 2) == State([], [Save([1], Sha([]), Prepared)]);
    BeforeNext(false, [], w, 2);
    BeforeNext(false, [], w, 3);
  }

  // ----- one save as the program runs it, with writes by others at two points

  class EditableFile {
    var disk: seq<byte>

    constructor (disk: seq<byte>)
      ensures this.disk == disk
    {
      this.disk := disk;
    }

    /** `early` lands before the second comparison and `late` after it. Only a write that
        lands late can be lost, and only when the file was otherwise as opened. An error
        may be returned although the file was replaced: that is `ReportFailed`. */
    method SaveDocument(content: seq<byte>, expected: Fingerprint, early: Option<seq<byte>>, prepared: bool,
                        late: Option<seq<byte>>, renamed: bool, reported: bool)
      returns (outcome: Outcome)
      modifies this
      ensures outcome in {Saved, ReportFailed} <==>
        && Savable(content) && Editable(old(disk)) && expected == Sha(old(disk)) && content != old(disk)
        && prepared && (early.None? || Sha(early.value) == expected) && renamed
      ensures outcome in {Saved, ReportFailed} ==> disk == content && (outcome == Saved <==> reported)
      ensures outcome !in {Saved, ReportFailed} ==>
        disk == old(disk) || (early.Some? && disk == early.value) || (late.Some? && disk == late.value)
      ensures outcome == Invalid <==> !Savable(content) || !Editable(old(disk))
      ensures outcome == Unchanged <==>
        Savable(content) && Editable(old(disk)) && expected == Sha(old(disk)) && content == old(disk)
      ensures outcome == Stale <==>
        && Savable(content) && Editable(old(disk))
        && (expected != Sha(old(disk))
            || (content != old(disk) && prepared && early.Some? && expected != Sha(early.value)))
      ensures outcome == Stale ==> disk == if expected == Sha(old(disk)) then early.value else old(disk)
      ensures outcome in {Invalid, Unchanged} ==> disk == old(disk)
      ensures outcome == WriteFailed ==>
        disk == if prepared && late.Some? then late.value else if early.Some? then early.value else old(disk)
      ensures early.None? && late.None? && outcome !in {Saved, ReportFailed} ==> disk == old(disk)
    {
      if !Savable(content) || !Editable(disk) {
        return Invalid;
      }
      if expected != Sha(disk) {
        return Stale;
      }
      if content == disk {
        return Unchanged;
      }
      if early.Some? {
        disk := early.value;
      }
      if !prepared {
        return WriteFailed;
      }
      if Sha(disk) != expected {
        return Stale;
      }
      if late.Some? {
        disk := late.value;
      }
      if !renamed {
        return WriteFailed;
      }
      disk := content;
      return if reported then Saved else ReportFailed;
    }
  }
}
