/** Editor drafts kept in a cache so that unsaved text can be recovered. */
module Drafts {
  import opened Wrappers
  import opened DocumentSave
  import opened Machine

  const CODE_DRAFT_VERSION: u32 := 1

  datatype Draft = Draft(path: string, content: seq<byte>, contentFingerprint: Fingerprint,
                         baseFingerprint: Fingerprint)

  /** What a cache file holds: a record, or text that does not parse as one. */
  datatype Persisted = Record(version: u32, identity: string, draft: Draft) | Garbage

  datatype RecoveryState = Safe | Conflict

  datatype Recovery = Recovery(draft: Draft, state: RecoveryState)

  type Cache = map<(string, string), Persisted>

  predicate ValidFingerprint(f: Fingerprint) {
    !f.Malformed?
  }

  predicate ValidPersisted(p: Persisted, identity: string, path: string) {
    && p.Record? && p.version == CODE_DRAFT_VERSION && p.identity == identity && p.draft.path == path
    && Savable(p.draft.content)
    && ValidFingerprint(p.draft.baseFingerprint) && ValidFingerprint(p.draft.contentFingerprint)
    && p.draft.contentFingerprint == Sha(p.draft.content)
  }

  datatype DraftError = InvalidInput | IoFailed

  /** The drafts of one cache directory. Project identities and relative paths name the
      cache files injectively; paths are given after the path guard. */
  class DraftStore {
    var files: Cache

    constructor ()
      ensures files == map[]
    {
      files := map[];
    }

    /** `renamed` puts the new file in place and `synced` makes it durable: when only the
        second fails, the draft is stored although an error is returned. */
    method SaveDraft(identity: string, path: string, content: seq<byte>, base: Fingerprint, renamed: bool, synced: bool)
      returns (r: Result<Draft, DraftError>)
      modifies this
      ensures r == Failure(InvalidInput) <==> !Savable(content) || !ValidFingerprint(base)
      ensures r.Success? <==> Savable(content) && ValidFingerprint(base) && renamed && synced
      ensures r.Success? ==>
        (identity, path) in files && files[(identity, path)] == Record(CODE_DRAFT_VERSION, identity, r.value)
      ensures files == Apply(old(files), SaveEvent(identity, path, content, base, renamed))
    {
      if !Savable(content) || !ValidFingerprint(base) {
        return Failure(InvalidInput);
      }
      var record := Draft(path, content, Sha(content), base);
      if !renamed {
        return Failure(IoFailed);
      }
      files := files[(identity, path) := Record(CODE_DRAFT_VERSION, identity, record)];
      return if synced then Success(record) else Failure(IoFailed);
    }

    /** A malformed fingerprint is an error. An unreadable or invalid file, or a draft equal
        to the current content, recovers nothing; the last two are removed when that works. */
    method LoadDraft(identity: string, path: string, current: Fingerprint, readable: bool, removed: bool)
      returns (recovery: Result<Option<Recovery>, DraftError>)
      modifies this
      ensures (files, recovery) == Load(old(files), identity, path, current, readable, removed)
    {
      if !ValidFingerprint(current) {
        return Failure(InvalidInput);
      }
      if (identity, path) !in files || !readable {
        return Success(None);
      }
      var persisted := files[(identity, path)];
      if !ValidPersisted(persisted, identity, path) || persisted.draft.contentFingerprint == current {
        if removed {
          files := files - {(identity, path)};
        }
        return Success(None);
      }
      var state := if persisted.draft.baseFingerprint == current then Safe else Conflict;
      return Success(Some(Recovery(persisted.draft, state)));
    }

    method DeleteDraft(identity: string, path: string, removed: bool) returns (existed: Result<bool, DraftError>)
      modifies this
      ensures existed ==
        if (identity, path) !in old(files) then Success(false)
        else if removed then Success(true) else Failure(IoFailed)
      ensures files == Apply(old(files), DeleteEvent(identity, path, removed))
    {
      if (identity, path) !in files {
        return Success(false);
      }
      if !removed {
        return Failure(IoFailed);
      }
      files := files - {(identity, path)};
      return Success(true);
    }
  }

  function Load(files: Cache, identity: string, path: string, current: Fingerprint, readable: bool, removed: bool)
    : (Cache, Result<Option<Recovery>, DraftError>)
  {
    if !ValidFingerprint(current) then (files, Failure(InvalidInput))
    else if (identity, path) !in files || !readable then (files, Success(None))
    else
      var p := files[(identity, path)];
      if !ValidPersisted(p, identity, path) || p.draft.contentFingerprint == current then
        (if removed then files - {(identity, path)} else files, Success(None))
      else (files, Success(Some(Recovery(p.draft, if p.draft.baseFingerprint == current then Safe else Conflict))))
  }

  // ----- runs over one cache

  /** `CorruptEvent` is any write to a cache file that the store did not make. */
  datatype Event =
    | SaveEvent(identity: string, path: string, content: seq<byte>, base: Fingerprint, renamed: bool)
    | LoadEvent(identity: string, path: string, current: Fingerprint, readable: bool, removed: bool)
    | DeleteEvent(identity: string, path: string, removed: bool)
    | CorruptEvent(identity: string, path: string, file: Persisted)

  function Apply(files: Cache, e: Event): Cache {
    match e
    case SaveEvent(identity, path, content, base, renamed) =>
      if Savable(content) && ValidFingerprint(base) && renamed
      then files[(identity, path) := Record(CODE_DRAFT_VERSION, identity, Draft(path, content, Sha(content), base))]
      else files
    case LoadEvent(identity, path, current, readable, removed) =>
      Load(files, identity, path, current, readable, removed).0
    case DeleteEvent(identity, path, removed) => if removed then files - {(identity, path)} else files
    case CorruptEvent(identity, path, file) => files[(identity, path) := file]
  }

  function Run(files: Cache, events: seq<Event>): Cache {
    if events == [] then files else Apply(Run(files, events[..|events| - 1]), events[|events| - 1])
  }

  /** The event leaves the draft of `(identity, path)` with this content alone: it is about
      another file, fails, or loads against different content. */
  predicate Spares(e: Event, identity: string, path: string, content: seq<byte>) {
    (e.identity, e.path) == (identity, path) ==>
      match e
      case SaveEvent(_, _, c, base, renamed) => !(Savable(c) && ValidFingerprint(base) && renamed)
      case LoadEvent(_, _, current, _, removed) => current != Sha(content) || !removed
      case DeleteEvent(_, _, removed) => !removed
      case CorruptEvent(_, _, _) => false
  }

  lemma {:induction false} DraftPersists(files: Cache, events: seq<Event>, identity: string, path: string,
                                         content: seq<byte>, base: Fingerprint)
    requires Savable(content) && ValidFingerprint(base)
    requires (identity, path) in files
    requires files[(identity, path)] == Record(CODE_DRAFT_VERSION, identity, Draft(path, content, Sha(content), base))
    requires forall i :: 0 <= i < |events| ==> Spares(events[i], identity, path, content)
    ensures (identity, path) in Run(files, events)
    ensures Run(files, events)[(identity, path)] == files[(identity, path)]
  {
    if events != [] {
      DraftPersists(files, events[..|events| - 1], identity, path, content, base);
      assert Spares(events[|events| - 1], identity, path, content);
    }
  }

  /** A valid saved draft, after any events that spare it, loads back as Safe exactly when
      its base matches the disk and its content differs from it; as a conflict exactly
      when neither matches; and not at all exactly when its content is on disk. */
  lemma {:induction false} SavedDraftRecovers(files: Cache, events: seq<Event>, identity: string, path: string,
                           content: seq<byte>, base: Fingerprint, disk: seq<byte>, removed: bool)
    requires Savable(content) && ValidFingerprint(base)
    requires forall i :: 0 <= i < |events| ==> Spares(events[i], identity, path, content)
    ensures var draft := Draft(path, content, Sha(content), base);
      var saved := Apply(files, SaveEvent(identity, path, content, base, true));
      var recovery := Load(Run(saved, events), identity, path, Sha(disk), true, removed).1;
      && (recovery == Success(Some(Recovery(draft, Safe))) <==> base == Sha(disk) && content != disk)
      && (recovery == Success(Some(Recovery(draft, Conflict))) <==> base != Sha(disk) && content != disk)
      && (recovery == Success(None) <==> content == disk)
  {
    DraftPersists(Apply(files, SaveEvent(identity, path, content, base, true)), events, identity, path, content, base);
  }

  /** Only a valid record of this very project and path is ever recovered, and loading
      neither adds nor alters a draft, nor removes any but the one asked for. */
  lemma LoadIsConfined(files: Cache, identity: string, path: string, current: Fingerprint, readable: bool,
                       removed: bool)
    ensures var (after, recovery) := Load(files, identity, path, current, readable, removed);
      && (recovery.Success? && recovery.value.Some? ==>
           && after == files && (identity, path) in files
           && ValidPersisted(files[(identity, path)], identity, path)
           && recovery.value.value.draft == files[(identity, path)].draft)
      && (forall key :: key != (identity, path) ==> (key in after <==> key in files))
      && (forall key :: key in after ==> key in files && after[key] == files[key])
  {
  }
}
