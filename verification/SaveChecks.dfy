/** What may be saved and recovered at all: the limits of editable files in plain numbers. */
module SaveChecks {
  import opened Wrappers
  import opened Bytes
  import opened Machine
  import opened DocumentSave
  import Drafts

  /** At most half a mebibyte, and no NUL. */
  predicate FitsEditor(content: seq<byte>) {
    |content| <= 524288 && forall i :: 0 <= i < |content| ==> content[i] != 0
  }

  /** At event `n` save `k` reads the file and finds text that no editor may open. */
  predicate FindsUneditable(joined: bool, disk: seq<byte>, events: seq<Event>, n: nat, k: nat)
    requires n < |events|
  {
    var s := Before(joined, disk, events, n);
    events[n] == ReadCurrent(k) && At(s, k, Started) && !(FitsEditor(s.disk) && ValidUtf8(s.disk))
  }

  predicate EverUneditable(joined: bool, disk: seq<byte>, events: seq<Event>, n: nat, k: nat)
    requires n <= |events|
  {
    exists m :: 0 <= m < n && FindsUneditable(joined, disk, events, m, k)
  }

  lemma EverUneditableNext(joined: bool, disk: seq<byte>, events: seq<Event>, n: nat, k: nat)
    requires n < |events|
    ensures EverUneditable(joined, disk, events, n + 1, k) <==>
      EverUneditable(joined, disk, events, n, k) || FindsUneditable(joined, disk, events, n, k)
  {
  }

  lemma FitsExactly(content: seq<byte>)
    ensures Savable(content) <==> FitsEditor(content)
    ensures Editable(content) <==> FitsEditor(content) && ValidUtf8(content)
  {
    assert 0 !in content <==> forall i :: 0 <= i < |content| ==> content[i] != 0;
  }

  /** Whether a save is refused: by its content from the start, or later by the file. */
  predicate RefusedBy(save: Save, found: bool) {
    && (save.phase == Ended(Invalid) <==> !FitsEditor(save.content) || found)
    && (found ==> FitsEditor(save.content))
  }

  lemma RefusedStep(joined: bool, s: State, e: Event, k: nat, found: bool)
    requires k < |s.saves| && RefusedBy(s.saves[k], found)
    ensures k < |Step(joined, s, e).saves|
    ensures var now := e == ReadCurrent(k) && At(s, k, Started) && !(FitsEditor(s.disk) && ValidUtf8(s.disk));
      RefusedBy(Step(joined, s, e).saves[k], found || now)
  {
    FitsExactly(s.disk);
  }

  lemma BegunSave(joined: bool, s: State, e: Event, k: nat)
    requires |s.saves| <= k < |Step(joined, s, e).saves|
    ensures RefusedBy(Step(joined, s, e).saves[k], false)
  {
    assert e.Begin?;
    FitsExactly(e.content);
  }

  lemma {:induction false} RefusedTrail(joined: bool, disk: seq<byte>, events: seq<Event>, n: nat, k: nat)
    requires n <= |events|
    ensures var s := Before(joined, disk, events, n);
      var found := EverUneditable(joined, disk, events, n, k);
      if k < |s.saves| then RefusedBy(s.saves[k], found) else !found
  {
    if n > 0 {
      var s := Before(joined, disk, events, n - 1);
      RefusedTrail(joined, disk, events, n - 1, k);
      BeforeNext(joined, disk, events, n - 1);
      EverUneditableNext(joined, disk, events, n - 1, k);
      if k < |s.saves| {
        RefusedStep(joined, s, events[n - 1], k, EverUneditable(joined, disk, events, n - 1, k));
      } else if k < |Before(joined, disk, events, n).saves| {
        BegunSave(joined, s, events[n - 1], k);
      }
    }
  }

  /** On every run a save is refused as invalid exactly when its content does not fit the
      editor or it read a file that does not fit it or is not UTF-8. */
  lemma RefusedExactly(joined: bool, disk: seq<byte>, events: seq<Event>, k: nat)
    requires k < |Run(joined, disk, events).saves|
    ensures var save := Run(joined, disk, events).saves[k];
      save.phase == Ended(Invalid) <==>
        !FitsEditor(save.content) || exists n :: 0 <= n < |events| && FindsUneditable(joined, disk, events, n, k)
  {
    assert events[..|events|] == events;
    RefusedTrail(joined, disk, events, |events|, k);
  }

  /** Text that a save puts in place can be opened again. */
  lemma WrittenIsEditable(joined: bool, disk: seq<byte>, events: seq<Event>, i: nat, k: nat)
    requires i < |events| && ReplacesAt(joined, disk, events, i, k)
    requires ValidUtf8(Before(joined, disk, events, i).saves[k].content)
    ensures Editable(Before(joined, disk, events, i + 1).disk) && FitsEditor(Before(joined, disk, events, i + 1).disk)
  {
    BeforeNext(joined, disk, events, i);
    RefusedTrail(joined, disk, events, i + 1, k);
    FitsExactly(Before(joined, disk, events, i).saves[k].content);
  }

  // ----- recovered drafts

  /** The file is an intact version 1 record of this project and path. */
  predicate Intact(file: Drafts.Persisted, identity: string, path: string, draft: Drafts.Draft) {
    && file == Drafts.Record(1, identity, draft)
    && draft.path == path
    && FitsEditor(draft.content)
    && draft.contentFingerprint == Sha(draft.content)
    && !draft.baseFingerprint.Malformed?
  }

  /** A load recovers a draft exactly when the cache holds an intact record of it that can be
      read and whose content is not what the file already has; it is safe exactly when the
      file still has the content it was based on. */
  lemma RecoveredExactly(files: Drafts.Cache, identity: string, path: string, current: Fingerprint, readable: bool,
                         removed: bool, draft: Drafts.Draft, safe: bool)
    ensures var recovery := Drafts.Recovery(draft, if safe then Drafts.Safe else Drafts.Conflict);
      Drafts.Load(files, identity, path, current, readable, removed).1 == Success(Some(recovery)) <==>
      && !current.Malformed? && readable
      && (identity, path) in files && Intact(files[(identity, path)], identity, path, draft)
      && current != Sha(draft.content)
      && (safe <==> draft.baseFingerprint == current)
  {
    FitsExactly(draft.content);
    if (identity, path) in files && files[(identity, path)].Record? {
      FitsExactly(files[(identity, path)].draft.content);
    }
  }

  /** A load leaves every other cache file alone, and removes this one exactly when it is
      useless: readable, and no record to recover from. */
  lemma LoadRemovesExactly(files: Drafts.Cache, identity: string, path: string, current: Fingerprint, readable: bool,
                           removed: bool, other: (string, string))
    ensures var after := Drafts.Load(files, identity, path, current, readable, removed).0;
      && (other in after ==> other in files && after[other] == files[other])
      && (other in files && other !in after <==>
            && other == (identity, path) && other in files && removed && readable && !current.Malformed?
            && forall draft :: !Intact(files[other], identity, path, draft) || current == Sha(draft.content))
  {
    if (identity, path) in files && files[(identity, path)].Record? {
      var draft := files[(identity, path)].draft;
      FitsExactly(draft.content);
      RecoveredExactly(files, identity, path, current, readable, removed, draft, draft.baseFingerprint == current);
    }
  }

  /** A deleted draft is gone: nothing is recovered for it, and no other file is touched. */
  lemma DeletedIsGone(files: Drafts.Cache, identity: string, path: string, other: (string, string))
    ensures var after := Drafts.Apply(files, Drafts.DeleteEvent(identity, path, true));
      && (identity, path) !in after
      && (other != (identity, path) ==>
            (other in after <==> other in files) && (other in after ==> after[other] == files[other]))
  {
  }

  /** A load fails exactly when the current fingerprint is malformed, as invalid input. */
  lemma LoadFailsExactly(files: Drafts.Cache, identity: string, path: string, current: Fingerprint, readable: bool,
                         removed: bool)
    ensures var r := Drafts.Load(files, identity, path, current, readable, removed).1;
      && (r.Failure? <==> current.Malformed?)
      && (r.Failure? ==> r.error == Drafts.InvalidInput)
  {
  }
}
