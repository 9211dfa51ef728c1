/** Custom providers: metadata on disk, credentials in the operating system's keychain,
    kept in step when any access may fail. */
module Providers {
  import opened Wrappers
  import opened Text
  import opened Slugs

  datatype Provider = Provider(
    id: string,
    displayLabel: string,
    baseUrl: string,
    apiKey: string,
    defaultModel: string,
    enabled: bool)

  /** What a keychain write does: it may claim success without effect, and it may fail
      with or without its effect. */
  datatype KeyOutcome = Works | Silent | Errors(applied: bool)

  datatype State = State(disk: seq<Provider>, keychain: map<string, string>)

  datatype ProviderError = InvalidInput | NotFound | KeychainFailed | NotVerified | SaveFailed | RollbackFailed
    | ReadBackFailed

  // ----- keychain primitives

  function Put(keychain: map<string, string>, key: string, value: Option<string>): map<string, string> {
    match value
    case Some(v) => keychain[key := v]
    case None => keychain - {key}
  }

  /** The keychain after a write of `value` (`None` deletes). */
  function Write(keychain: map<string, string>, key: string, value: Option<string>,
                 o: KeyOutcome): map<string, string> {
    if o == Works || o == Errors(true) then Put(keychain, key, value) else keychain
  }

  function Read(keychain: map<string, string>, key: string): Option<string> {
    if key in keychain then Some(keychain[key]) else None
  }

  function AsSecret(apiKey: string): Option<string> {
    var secret := Trim(apiKey);
    if secret == [] then None else Some(secret)
  }

  /** Serialising a provider omits its key. */
  function Stripped(p: Provider): Provider {
    p.(apiKey := [])
  }

  function StripAll(ps: seq<Provider>): seq<Provider> {
    seq(|ps|, i requires 0 <= i < |ps| => Stripped(ps[i]))
  }

  // ----- migration of plaintext keys

  datatype MigrateFault = MigrateFault(write: KeyOutcome, readable: bool)

  /** The keychain slot of a provider and the plaintext secret bound for it, if any. */
  datatype Entry = Entry(key: string, secret: Option<string>)

  function EntryOf(p: Provider): Entry {
    Entry(CredentialKey(p.id), AsSecret(p.apiKey))
  }

  function Entries(ps: seq<Provider>): seq<Entry> {
    seq(|ps|, i requires 0 <= i < |ps| => EntryOf(ps[i]))
  }

  /** The keychain so far, and whether anything moved into it, or why it stopped. */
  datatype Move = Move(keychain: map<string, string>, result: Result<bool, ProviderError>)

  /** One entry: written, then read back. */
  function MoveOne(e: Entry, keychain: map<string, string>, f: MigrateFault): Move {
    if e.secret.None? then Move(keychain, Success(false))
    else
      var after := Write(keychain, e.key, e.secret, f.write);
      if f.write.Errors? || !f.readable then Move(after, Failure(KeychainFailed))
      else if Read(after, e.key) != e.secret then Move(after, Failure(NotVerified))
      else Move(after, Success(true))
  }

  /** The first `n` entries, stopping at the first failure. */
  function MoveUpTo(es: seq<Entry>, keychain: map<string, string>, fs: seq<MigrateFault>, n: nat): Move
    requires n <= |es| == |fs|
  {
    if n == 0 then Move(keychain, Success(false))
    else
      var before := MoveUpTo(es, keychain, fs, n - 1);
      if before.result.Failure? then before
      else
        var one := MoveOne(es[n - 1], before.keychain, fs[n - 1]);
        if one.result.Failure? then one else Move(one.keychain, Success(before.result.value || one.result.value))
  }

  function MoveAll(ps: seq<Provider>, keychain: map<string, string>, fs: seq<MigrateFault>): Move
    requires |ps| == |fs|
  {
    MoveUpTo(Entries(ps), keychain, fs, |ps|)
  }

  /** Verified entries have their key cleared in memory; blank keys are left alone. */
  function Cleared(p: Provider): Provider {
    if AsSecret(p.apiKey).Some? then Stripped(p) else p
  }

  function ClearAll(ps: seq<Provider>): seq<Provider> {
    seq(|ps|, i requires 0 <= i < |ps| => Cleared(ps[i]))
  }

  // ----- whole operations

  /** Faults of loading and migrating: one per entry on disk, and the save at the end. */
  datatype LoadFaults = LoadFaults(readable: bool, migrate: seq<MigrateFault>, saved: bool)

  function Load(s: State, f: LoadFaults): (State, Result<seq<Provider>, ProviderError>)
    requires |f.migrate| == |s.disk|
  {
    if !f.readable then (s, Failure(SaveFailed))
    else
      var m := MoveAll(s.disk, s.keychain, f.migrate);
      var moved := s.(keychain := m.keychain);
      if m.result.Failure? then (moved, Failure(m.result.error))
      else if !m.result.value then (moved, Success(ClearAll(s.disk)))
      else if !f.saved then (moved, Failure(SaveFailed))
      else (moved.(disk := StripAll(ClearAll(s.disk))), Success(ClearAll(s.disk)))
  }

  /** Faults of one keychain update guarded by a metadata save. */
  datatype CommitFaults = CommitFaults(
    previousReadable: bool,
    write: KeyOutcome,
    verifyReadable: bool,
    saved: bool,
    rollback: KeyOutcome,
    readBack: bool)

  /** The list returned to the caller carries each provider's secret, which is read again
      from the keychain. */
  function Hydrated(ps: seq<Provider>, keychain: map<string, string>): seq<Provider> {
    seq(|ps|, i requires 0 <= i < |ps| =>
      ps[i].(apiKey := if CredentialKey(ps[i].id) in keychain then keychain[CredentialKey(ps[i].id)] else []))
  }

  /** Write the secret, verify it, then save the metadata; put the previous secret back
      when the save fails. A committed change is still reported as an error when reading the
      secrets for the returned list fails. */
  function Commit(s: State, key: string, secret: Option<string>, config: seq<Provider>, f: CommitFaults)
    : (State, Result<seq<Provider>, ProviderError>)
  {
    if !f.previousReadable then (s, Failure(KeychainFailed))
    else
      var previous := Read(s.keychain, key);
      var written := s.(keychain := Write(s.keychain, key, secret, f.write));
      if f.write.Errors? || !f.verifyReadable then (written, Failure(KeychainFailed))
      else if Read(written.keychain, key) != secret then (written, Failure(NotVerified))
      else if f.saved then
        (written.(disk := StripAll(config)),
         if f.readBack then Success(Hydrated(config, written.keychain)) else Failure(ReadBackFailed))
      else
        (written.(keychain := Write(written.keychain, key, previous, f.rollback)),
         Failure(if f.rollback.Errors? then RollbackFailed else SaveFailed))
  }

  function FindId(ps: seq<Provider>, id: string): (i: nat)
    ensures i <= |ps|
    ensures i < |ps| ==> ps[i].id == id
    ensures forall k :: 0 <= k < i ==> ps[k].id != id
  {
    if ps == [] || ps[0].id == id then 0 else 1 + FindId(ps[1..], id)
  }

  function Upsert(ps: seq<Provider>, p: Provider): seq<Provider> {
    var i := FindId(ps, p.id);
    if i < |ps| then ps[i := p] else ps + [p]
  }

  function RemoveId(ps: seq<Provider>, id: string): seq<Provider> {
    if ps == [] then []
    else (if ps[0].id == id then [] else [ps[0]]) + RemoveId(ps[1..], id)
  }

  function TargetId(p: Provider): string {
    if Blank(p.id) then Slugify(p.displayLabel) else Slugify(p.id)
  }

  /** `url` is the validated base URL, or nothing when validation rejects it. */
  function Save(s: State, p: Provider, url: Option<string>, load: LoadFaults, f: CommitFaults)
    : (State, Result<seq<Provider>, ProviderError>)
    requires |load.migrate| == |s.disk|
  {
    if Blank(p.displayLabel) || url.None? then (s, Failure(InvalidInput))
    else
      var (loaded, config) := Load(s, load);
      if config.Failure? then (loaded, Failure(config.error))
      else
        var stored := Stripped(p.(id := TargetId(p), baseUrl := url.value));
        Commit(loaded, CredentialKey(stored.id), AsSecret(p.apiKey), Upsert(config.value, stored), f)
  }

  function Delete(s: State, id: string, load: LoadFaults, f: CommitFaults)
    : (State, Result<seq<Provider>, ProviderError>)
    requires |load.migrate| == |s.disk|
  {
    var (loaded, config) := Load(s, load);
    if config.Failure? then (loaded, Failure(config.error))
    else
      var remaining := RemoveId(config.value, Slugify(id));
      if |remaining| == |config.value| then (loaded, Failure(NotFound))
      else Commit(loaded, CredentialKey(Slugify(id)), None, remaining, f)
  }

  // ----- the store the operations update in place

  /** The migration loop after `n` entries, none of which failed. */
  ghost predicate Migrating(ps: seq<Provider>, start: map<string, string>, fs: seq<MigrateFault>, n: nat,
                            config: seq<Provider>, move: Move)
  {
    n <= |ps| == |fs| && config == ClearAll(ps[..n]) && move == MoveUpTo(Entries(ps), start, fs, n)
  }

  lemma MigratingStep(ps: seq<Provider>, start: map<string, string>, fs: seq<MigrateFault>, n: nat,
                      config: seq<Provider>, before: Move, one: Move)
    requires n < |ps| && Migrating(ps, start, fs, n, config, before) && before.result.Success?
    requires one == MoveOne(EntryOf(ps[n]), before.keychain, fs[n])
    ensures one.result.Failure? ==> one == MoveAll(ps, start, fs)
    ensures one.result.Success? ==>
      Migrating(ps, start, fs, n + 1, config + [Cleared(ps[n])],
                Move(one.keychain, Success(before.result.value || one.result.value)))
  {
    EntryAt(ps, n);
    MoveNext(Entries(ps), start, fs, n);
    if one.result.Failure? {
      MoveStops(Entries(ps), start, fs, n + 1, |ps|);
    } else {
      ClearNext(ps, n);
    }
  }

  lemma MoveNext(es: seq<Entry>, start: map<string, string>, fs: seq<MigrateFault>, n: nat)
    requires n < |es| == |fs| && MoveUpTo(es, start, fs, n).result.Success?
    ensures var before := MoveUpTo(es, start, fs, n); var one := MoveOne(es[n], before.keychain, fs[n]);
      MoveUpTo(es, start, fs, n + 1) ==
        if one.result.Failure? then one else Move(one.keychain, Success(before.result.value || one.result.value))
  {
  }

  lemma EntryAt(ps: seq<Provider>, n: nat)
    requires n < |ps|
    ensures Entries(ps)[n] == EntryOf(ps[n])
  {
  }

  lemma ClearNext(ps: seq<Provider>, n: nat)
    requires n < |ps|
    ensures ClearAll(ps[..n + 1]) == ClearAll(ps[..n]) + [Cleared(ps[n])]
  {
  }

  lemma MigratingEnds(ps: seq<Provider>, start: map<string, string>, fs: seq<MigrateFault>, config: seq<Provider>,
                      move: Move)
    requires Migrating(ps, start, fs, |ps|, config, move)
    ensures move == MoveAll(ps, start, fs) && config == ClearAll(ps)
  {
    assert ps[..|ps|] == ps;
  }

  class ProviderStore {
    var disk: seq<Provider>
    var keychain: map<string, string>

    ghost function View(): State
      reads this
    {
      State(disk, keychain)
    }

    constructor (keychain: map<string, string>)
      ensures View() == State([], keychain)
    {
      disk, this.keychain := [], keychain;
    }

    method SetSecret(key: string, value: Option<string>, o: KeyOutcome) returns (ok: bool)
      modifies this`keychain
      ensures keychain == Write(old(keychain), key, value, o) && (ok <==> !o.Errors?)
    {
      if o == Works || o == Errors(true) {
        keychain := Put(keychain, key, value);
      }
      ok := !o.Errors?;
    }

    method MigrateEntry(p: Provider, f: MigrateFault) returns (entry: Provider, changed: Result<bool, ProviderError>)
      modifies this`keychain
      ensures Move(keychain, changed) == MoveOne(EntryOf(p), old(keychain), f)
      ensures changed.Success? ==> entry == Cleared(p)
    {
      var secret := Trim(p.apiKey);
      if secret == [] {
        return p, Success(false);
      }
      var key := CredentialKey(p.id);
      var ok := SetSecret(key, Some(secret), f.write);
      if !ok || !f.readable {
        return p, Failure(KeychainFailed);
      }
      if Read(keychain, key) != Some(secret) {
        return p, Failure(NotVerified);
      }
      return Stripped(p), Success(true);
    }

    method MigratePlaintext(providers: seq<Provider>, faults: seq<MigrateFault>)
      returns (config: seq<Provider>, changed: Result<bool, ProviderError>)
      requires |faults| == |providers|
      modifies this`keychain
      ensures Move(keychain, changed) == MoveAll(providers, old(keychain), faults)
      ensures changed.Success? ==> config == ClearAll(providers)
    {
      config := [];
      changed := Success(false);
      ghost var start := keychain;
      for i := 0 to |providers|
        invariant changed.Success?
        invariant Migrating(providers, start, faults, i, config, Move(keychain, changed))
      {
        ghost var before := Move(keychain, changed);
        var entry, one := MigrateEntry(providers[i], faults[i]);
        MigratingStep(providers, start, faults, i, config, before, Move(keychain, one));
        if one.Failure? {
          return config, one;
        }
        config := config + [entry];
        changed := Success(changed.value || one.value);
      }
      MigratingEnds(providers, start, faults, config, Move(keychain, changed));
    }

    method LoadWithMigration(f: LoadFaults) returns (r: Result<seq<Provider>, ProviderError>)
      requires |f.migrate| == |disk|
      modifies this
      ensures (View(), r) == Load(old(View()), f)
    {
      if !f.readable {
        return Failure(SaveFailed);
      }
      var config, changed := MigratePlaintext(disk, f.migrate);
      match changed
      case Failure(e) => return Failure(e);
      case Success(dirty) =>
        if dirty {
          if !f.saved {
            return Failure(SaveFailed);
          }
          disk := StripAll(config);
        }
        return Success(config);
    }

    method CommitChange(key: string, secret: Option<string>, config: seq<Provider>, f: CommitFaults)
      returns (r: Result<seq<Provider>, ProviderError>)
      modifies this
      ensures (View(), r) == Commit(old(View()), key, secret, config, f)
    {
      if !f.previousReadable {
        return Failure(KeychainFailed);
      }
      var previous := Read(keychain, key);
      var ok := SetSecret(key, secret, f.write);
      if !ok || !f.verifyReadable {
        return Failure(KeychainFailed);
      }
      if Read(keychain, key) != secret {
        return Failure(NotVerified);
      }
      if !f.saved {
        ok := SetSecret(key, previous, f.rollback);
        return Failure(if ok then SaveFailed else RollbackFailed);
      }
      disk := StripAll(config);
      return if f.readBack then Success(Hydrated(config, keychain)) else Failure(ReadBackFailed);
    }

    method SaveProvider(p: Provider, url: Option<string>, load: LoadFaults, f: CommitFaults)
      returns (r: Result<seq<Provider>, ProviderError>)
      requires |load.migrate| == |disk|
      modifies this
      ensures (View(), r) == Save(old(View()), p, url, load, f)
    {
      if Blank(p.displayLabel) || url.None? {
        return Failure(InvalidInput);
      }
      var stored := Stripped(p.(id := TargetId(p), baseUrl := url.value));
      var config := LoadWithMigration(load);
      if config.Failure? {
        return Failure(config.error);
      }
      r := CommitChange(CredentialKey(stored.id), AsSecret(p.apiKey), Upsert(config.value, stored), f);
    }

    method DeleteProvider(id: string, load: LoadFaults, f: CommitFaults)
      returns (r: Result<seq<Provider>, ProviderError>)
      requires |load.migrate| == |disk|
      modifies this
      ensures (View(), r) == Delete(old(View()), id, load, f)
    {
      var config := LoadWithMigration(load);
      if config.Failure? {
        return Failure(config.error);
      }
      var remaining := RemoveId(config.value, Slugify(id));
      if |remaining| == |config.value| {
        return Failure(NotFound);
      }
      r := CommitChange(CredentialKey(Slugify(id)), None, remaining, f);
    }
  }

  lemma {:induction false} MoveStops(es: seq<Entry>, keychain: map<string, string>, fs: seq<MigrateFault>, i: nat,
                                     n: nat)
    requires i <= n <= |es| == |fs|
    requires MoveUpTo(es, keychain, fs, i).result.Failure?
    ensures MoveUpTo(es, keychain, fs, n) == MoveUpTo(es, keychain, fs, i)
  {
    if i < n {
      MoveStops(es, keychain, fs, i, n - 1);
    }
  }

  // ----- migration never loses a secret

  /** Two plaintext entries want one keychain slot for different secrets. */
  predicate Clash(p: Entry, q: Entry) {
    p.secret.Some? && q.secret.Some? && p.key == q.key && p.secret != q.secret
  }

  predicate NoClash(es: seq<Entry>) {
    forall i, j :: 0 <= i < j < |es| ==> !Clash(es[i], es[j])
  }

  /** Plaintext entries with the same slug carry the same secret; distinct slugs are the
      common case. */
  predicate Compatible(ps: seq<Provider>) {
    forall i, j :: 0 <= i < j < |ps| && Slugify(ps[i].id) == Slugify(ps[j].id) ==>
      AsSecret(ps[i].apiKey).None? || AsSecret(ps[j].apiKey).None? || AsSecret(ps[i].apiKey) == AsSecret(ps[j].apiKey)
  }

  lemma CompatibleIsNoClash(ps: seq<Provider>)
    ensures Compatible(ps) <==> NoClash(Entries(ps))
  {
    forall i, j | 0 <= i < j < |ps|
      ensures Slugify(ps[i].id) == Slugify(ps[j].id) <==> Entries(ps)[i].key == Entries(ps)[j].key
    {
      CredentialKeyInjective(ps[i].id, ps[j].id);
    }
    if !Compatible(ps) {
      var i, j :| 0 <= i < j < |ps| && Slugify(ps[i].id) == Slugify(ps[j].id) &&
        AsSecret(ps[i].apiKey).Some? && AsSecret(ps[j].apiKey).Some?
          && AsSecret(ps[i].apiKey) != AsSecret(ps[j].apiKey);
      assert Clash(Entries(ps)[i], Entries(ps)[j]);
    }
  }

  /** The secret of the entry can be read from the keychain. */
  predicate Holds(keychain: map<string, string>, e: Entry) {
    e.secret.Some? ==> Read(keychain, e.key) == e.secret
  }

  lemma MoveOneHolds(e: Entry, other: Entry, keychain: map<string, string>, f: MigrateFault)
    requires MoveOne(e, keychain, f).result.Success?
    ensures Holds(MoveOne(e, keychain, f).keychain, e)
    ensures Holds(keychain, other) && !Clash(other, e) ==> Holds(MoveOne(e, keychain, f).keychain, other)
  {
  }

  lemma {:induction false} MovedHolds(es: seq<Entry>, keychain: map<string, string>, fs: seq<MigrateFault>, n: nat,
                                      i: nat)
    requires i < n <= |es| == |fs| && NoClash(es)
    requires MoveUpTo(es, keychain, fs, n).result.Success?
    ensures Holds(MoveUpTo(es, keychain, fs, n).keychain, es[i])
  {
    var before := MoveUpTo(es, keychain, fs, n - 1);
    MoveOneHolds(es[n - 1], es[i], before.keychain, fs[n - 1]);
    if i < n - 1 {
      assert !Clash(es[i], es[n - 1]);
      MovedHolds(es, keychain, fs, n - 1, i);
    }
  }

  predicate AnySecret(es: seq<Entry>, n: nat)
    requires n <= |es|
  {
    exists i :: 0 <= i < n && es[i].secret.Some?
  }

  lemma {:induction false} MovedSomething(es: seq<Entry>, keychain: map<string, string>, fs: seq<MigrateFault>, n: nat)
    requires n <= |es| == |fs| && MoveUpTo(es, keychain, fs, n).result.Success?
    ensures MoveUpTo(es, keychain, fs, n).result.value <==> AnySecret(es, n)
    ensures !AnySecret(es, n) ==> MoveUpTo(es, keychain, fs, n).keychain == keychain
  {
    if n > 0 {
      MovedSomething(es, keychain, fs, n - 1);
      assert AnySecret(es, n) <==> AnySecret(es, n - 1) || es[n - 1].secret.Some?;
    }
  }

  /** Whatever fails, every plaintext secret is afterwards on disk or in the keychain. */
  lemma MigrationKeepsSecrets(s: State, f: LoadFaults, i: nat)
    requires |f.migrate| == |s.disk| && Compatible(s.disk) && i < |s.disk|
    ensures var after := Load(s, f).0;
      |after.disk| == |s.disk| && (after.disk[i] == s.disk[i] || Holds(after.keychain, EntryOf(s.disk[i])))
  {
    CompatibleIsNoClash(s.disk);
    if MoveAll(s.disk, s.keychain, f.migrate).result.Success? {
      MovedHolds(Entries(s.disk), s.keychain, f.migrate, |s.disk|, i);
    }
  }

  function NoFaults(n: nat): LoadFaults {
    LoadFaults(true, seq(n, i => MigrateFault(Works, true)), true)
  }

  lemma {:induction false} FaultFreeSucceeds(es: seq<Entry>, keychain: map<string, string>, n: nat)
    requires n <= |es|
    ensures MoveUpTo(es, keychain, NoFaults(|es|).migrate, n).result.Success?
  {
    if n > 0 {
      FaultFreeSucceeds(es, keychain, n - 1);
    }
  }

  lemma EntriesExact(es: seq<Entry>, keychain: map<string, string>)
    ensures var after := MoveUpTo(es, keychain, NoFaults(|es|).migrate, |es|).keychain;
      (forall i :: 0 <= i < |es| ==> Holds(after, es[i])) <==> NoClash(es)
  {
    FaultFreeSucceeds(es, keychain, |es|);
    var after := MoveUpTo(es, keychain, NoFaults(|es|).migrate, |es|).keychain;
    if NoClash(es) {
      forall i | 0 <= i < |es|
        ensures Holds(after, es[i])
      {
        MovedHolds(es, keychain, NoFaults(|es|).migrate, |es|, i);
      }
    } else {
      var i, j :| 0 <= i < j < |es| && Clash(es[i], es[j]);
      assert !Holds(after, es[i]) || !Holds(after, es[j]);
    }
  }

  /** Every plaintext secret of `ps` can be read from the keychain. */
  predicate AllHeld(keychain: map<string, string>, ps: seq<Provider>) {
    forall i :: 0 <= i < |ps| ==> Holds(keychain, Entries(ps)[i])
  }

  /** With every access working, no secret is lost exactly when entries sharing a slug
      share their secret. */
  lemma MigrationExact(s: State)
    ensures AllHeld(Load(s, NoFaults(|s.disk|)).0.keychain, s.disk) <==> Compatible(s.disk)
  {
    CompatibleIsNoClash(s.disk);
    EntriesExact(Entries(s.disk), s.keychain);
  }

  predicate NoPlaintext(ps: seq<Provider>) {
    forall i :: 0 <= i < |ps| ==> ps[i].apiKey == []
  }

  lemma NoSecretsNothingMoves(ps: seq<Provider>, keychain: map<string, string>, fs: seq<MigrateFault>)
    requires |fs| == |ps| && forall i :: 0 <= i < |ps| ==> AsSecret(ps[i].apiKey).None?
    ensures MoveAll(ps, keychain, fs) == Move(keychain, Success(false))
    ensures ClearAll(ps) == ps
  {
    NothingMoves(Entries(ps), keychain, fs, |ps|);
  }

  lemma {:induction false} NothingMoves(es: seq<Entry>, keychain: map<string, string>, fs: seq<MigrateFault>, n: nat)
    requires n <= |es| == |fs| && forall i :: 0 <= i < |es| ==> es[i].secret.None?
    ensures MoveUpTo(es, keychain, fs, n) == Move(keychain, Success(false))
  {
    if n > 0 {
      NothingMoves(es, keychain, fs, n - 1);
    }
  }

  /** Without plaintext there is nothing to migrate, whatever the keychain would do. */
  lemma NothingToMigrate(s: State, f: LoadFaults)
    requires |f.migrate| == |s.disk| && NoPlaintext(s.disk)
    ensures Load(s, f).0 == s
    ensures f.readable ==> Load(s, f).1 == Success(s.disk)
  {
    NoSecretsNothingMoves(s.disk, s.keychain, f.migrate);
  }

  /** A successful migration leaves nothing for the next one: the second load changes
      nothing and touches no secret. */
  lemma SecondMigrationIsNoOp(s: State, f: LoadFaults, g: LoadFaults)
    requires |f.migrate| == |s.disk|
    requires Load(s, f).1.Success? && |g.migrate| == |Load(s, f).0.disk|
    ensures Load(Load(s, f).0, g).0 == Load(s, f).0
  {
    var t := Load(s, f).0;
    MovedSomething(Entries(s.disk), s.keychain, f.migrate, |s.disk|);
    if !MoveAll(s.disk, s.keychain, f.migrate).result.value {
      forall i | 0 <= i < |t.disk|
        ensures AsSecret(t.disk[i].apiKey).None?
      {
        assert Entries(s.disk)[i].secret == AsSecret(t.disk[i].apiKey);
      }
    }
    NoSecretsNothingMoves(t.disk, t.keychain, g.migrate);
  }

  // ----- runs from any configuration

  datatype Event =
    | LoadEvent(load: LoadFaults)
    | SaveEvent(provider: Provider, url: Option<string>, load: LoadFaults, commit: CommitFaults)
    | DeleteEvent(id: string, load: LoadFaults, commit: CommitFaults)

  function Resize(f: LoadFaults, n: nat): LoadFaults {
    f.(migrate := seq(n, i => if 0 <= i < |f.migrate| then f.migrate[i] else MigrateFault(Works, true)))
  }

  function Step(s: State, e: Event): State {
    match e
    case LoadEvent(load) => Load(s, Resize(load, |s.disk|)).0
    case SaveEvent(p, url, load, f) => Save(s, p, url, Resize(load, |s.disk|), f).0
    case DeleteEvent(id, load, f) => Delete(s, id, Resize(load, |s.disk|), f).0
  }

  function Run(start: State, events: seq<Event>): State {
    if events == [] then start else Step(Run(start, events[..|events| - 1]), events[|events| - 1])
  }

  function Empty(keychain: map<string, string>): State {
    State([], keychain)
  }

  /** Ids are slugs, each used once. */
  predicate IdsKept(ps: seq<Provider>) {
    && (forall i :: 0 <= i < |ps| ==> IsSlug(ps[i].id))
    && (forall i, j :: 0 <= i < j < |ps| ==> ps[i].id != ps[j].id)
  }

  predicate WellKept(ps: seq<Provider>) {
    NoPlaintext(ps) && IdsKept(ps)
  }

  lemma StripKept(ps: seq<Provider>)
    requires NoPlaintext(ps)
    ensures StripAll(ps) == ps
  {
  }

  lemma UpsertKeeps(ps: seq<Provider>, p: Provider)
    requires IdsKept(ps) && IsSlug(p.id)
    ensures IdsKept(Upsert(ps, p))
    ensures NoPlaintext(ps) && p.apiKey == [] ==> NoPlaintext(Upsert(ps, p))
  {
  }

  lemma {:induction false} RemoveKeeps(ps: seq<Provider>, id: string)
    requires IdsKept(ps)
    ensures IdsKept(RemoveId(ps, id))
    ensures NoPlaintext(ps) ==> NoPlaintext(RemoveId(ps, id))
    ensures forall p :: p in RemoveId(ps, id) <==> p in ps && p.id != id
  {
    if ps != [] {
      RemoveKeeps(ps[1..], id);
      assert ps == [ps[0]] + ps[1..];
      forall p | p in RemoveId(ps[1..], id)
        ensures p.id != ps[0].id
      {
        var k :| 0 <= k < |ps[1..]| && ps[1..][k] == p;
        assert ps[k + 1] == p;
      }
    }
  }

  lemma CommitKeeps(s: State, key: string, secret: Option<string>, config: seq<Provider>, f: CommitFaults)
    requires IdsKept(s.disk) && IdsKept(config)
    ensures IdsKept(Commit(s, key, secret, config, f).0.disk)
    ensures NoPlaintext(s.disk) ==> NoPlaintext(Commit(s, key, secret, config, f).0.disk)
  {
  }

  lemma StepKeepsWell(s: State, e: Event)
    requires WellKept(s.disk)
    ensures WellKept(Step(s, e).disk)
  {
    NothingToMigrate(s, Resize(e.load, |s.disk|));
    match e
    case LoadEvent(load) =>
    case SaveEvent(p, url, load, f) =>
      SlugifyNormalises(p.displayLabel);
      SlugifyNormalises(p.id);
      if url.Some? {
        var stored := Stripped(p.(id := TargetId(p), baseUrl := url.value));
        UpsertKeeps(s.disk, stored);
        CommitKeeps(s, CredentialKey(stored.id), AsSecret(p.apiKey), Upsert(s.disk, stored), f);
      }
    case DeleteEvent(id, load, f) =>
      RemoveKeeps(s.disk, Slugify(id));
      CommitKeeps(s, CredentialKey(Slugify(id)), None, RemoveId(s.disk, Slugify(id)), f);
  }

  /** In every state reached from an empty configuration the stored ids are unique slugs
      and no key is on disk, whatever failed along the way. */
  lemma {:induction false} RunKeepsWell(keychain: map<string, string>, events: seq<Event>)
    ensures WellKept(Run(Empty(keychain), events).disk)
  {
    if events != [] {
      RunKeepsWell(keychain, events[..|events| - 1]);
      StepKeepsWell(Run(Empty(keychain), events[..|events| - 1]), events[|events| - 1]);
    }
  }

  // ----- what an operation leaves alone, and what it restores

  function Target(e: Event): Option<string> {
    match e
    case LoadEvent(_) => None
    case SaveEvent(p, _, _, _) => Some(TargetId(p))
    case DeleteEvent(id, _, _) => Some(Slugify(id))
  }

  lemma CommitTouchesOneKey(s: State, key: string, other: string, secret: Option<string>, config: seq<Provider>,
                            f: CommitFaults)
    requires other != key
    ensures Read(Commit(s, key, secret, config, f).0.keychain, other) == Read(s.keychain, other)
    ensures Commit(s, key, secret, config, f).0.disk == s.disk
      || Commit(s, key, secret, config, f).0.disk == StripAll(config)
  {
  }

  /** Entries and secrets of other providers never change. */
  lemma OthersUntouched(keychain: map<string, string>, events: seq<Event>, e: Event, id: string)
    requires Target(e) != Some(id) && IsSlug(id)
    ensures var s := Run(Empty(keychain), events); var t := Step(s, e);
      && Read(t.keychain, CredentialKey(id)) == Read(s.keychain, CredentialKey(id))
      && (forall p: Provider :: p.id == id ==> (p in t.disk <==> p in s.disk))
  {
    RunKeepsWell(keychain, events);
    var s := Run(Empty(keychain), events);
    NothingToMigrate(s, Resize(e.load, |s.disk|));
    SlugifyNormalises(id);
    match e
    case LoadEvent(load) =>
    case SaveEvent(p, url, load, f) =>
      if url.Some? {
        SaveTouchesTarget(s, p, url, f, id);
      }
    case DeleteEvent(target, load, f) =>
      SlugifyNormalises(target);
      SlugifyNormalises(Slugify(target));
      CredentialKeyInjective(id, Slugify(target));
      RemoveKeeps(s.disk, Slugify(target));
      StripKept(RemoveId(s.disk, Slugify(target)));
      CommitTouchesOneKey(s, CredentialKey(Slugify(target)), CredentialKey(id), None,
                          RemoveId(s.disk, Slugify(target)), f);
  }

  lemma SaveTouchesTarget(s: State, p: Provider, url: Option<string>, f: CommitFaults, id: string)
    requires WellKept(s.disk) && IsSlug(id) && TargetId(p) != id && url.Some?
    ensures var stored := Stripped(p.(id := TargetId(p), baseUrl := url.value));
      var t := Commit(s, CredentialKey(stored.id), AsSecret(p.apiKey), Upsert(s.disk, stored), f).0;
      && Read(t.keychain, CredentialKey(id)) == Read(s.keychain, CredentialKey(id))
      && (forall q: Provider :: q.id == id ==> (q in t.disk <==> q in s.disk))
  {
    var stored := Stripped(p.(id := TargetId(p), baseUrl := url.value));
    SlugifyNormalises(p.displayLabel);
    SlugifyNormalises(p.id);
    SlugifyNormalises(stored.id);
    SlugifyNormalises(id);
    CredentialKeyInjective(id, stored.id);
    UpsertKeeps(s.disk, stored);
    StripKept(Upsert(s.disk, stored));
    UpsertOthers(s.disk, stored, id);
    CommitTouchesOneKey(s, CredentialKey(stored.id), CredentialKey(id), AsSecret(p.apiKey), Upsert(s.disk, stored), f);
  }

  lemma UpsertOthers(ps: seq<Provider>, p: Provider, id: string)
    requires id != p.id
    ensures forall q: Provider :: q.id == id ==> (q in Upsert(ps, p) <==> q in ps)
  {
    forall q: Provider | q.id == id && q in ps
      ensures q in Upsert(ps, p)
    {
      var k :| 0 <= k < |ps| && ps[k] == q;
      assert Upsert(ps, p)[k] == q;
    }
  }

  // ----- when a change is all or nothing

  /** The change goes through: every access it makes works, or the secret was there already. */
  predicate GoesThrough(s: State, key: string, secret: Option<string>, f: CommitFaults) {
    f.previousReadable && !f.write.Errors? && f.verifyReadable && f.saved
    && (f.write == Works || Read(s.keychain, key) == secret)
  }

  /** No trace of a failed change remains: there was nothing to change, the secret was not
      written, or the write was verified and then rolled back with effect. */
  predicate Undone(s: State, key: string, secret: Option<string>, f: CommitFaults) {
    || Read(s.keychain, key) == secret
    || !f.previousReadable
    || f.write == Silent || f.write == Errors(false)
    || (f.write == Works && f.verifyReadable && (f.rollback == Works || f.rollback == Errors(true)))
  }

  /** A change that goes through installs metadata and secret together, and is reported as a
      success exactly when the secrets can then be read back. Any other change fails, leaves
      the metadata as it was, and leaves the secret as it was exactly when it was undone. */
  lemma CommitIsAllOrNothing(s: State, key: string, secret: Option<string>, config: seq<Provider>, f: CommitFaults)
    ensures var (t, r) := Commit(s, key, secret, config, f);
      && (r.Success? <==> GoesThrough(s, key, secret, f) && f.readBack)
      && (r.Success? ==> r.value == Hydrated(t.disk, t.keychain))
      && (GoesThrough(s, key, secret, f) ==> t == State(StripAll(config), Put(s.keychain, key, secret)))
      && (!GoesThrough(s, key, secret, f) ==> t.disk == s.disk && (t == s <==> Undone(s, key, secret, f)))
  {
    var previous := Read(s.keychain, key);
    assert Put(s.keychain, key, previous) == s.keychain;
    assert Put(Put(s.keychain, key, secret), key, previous) == s.keychain;
    assert Read(Put(s.keychain, key, secret), key) == secret;
  }

  /** In every reached state a save either sets entry and secret together, or leaves the
      metadata as it was, and then everything exactly when it is refused, cannot load, or its
      change is undone. */
  lemma SaveIsAllOrNothing(keychain: map<string, string>, events: seq<Event>, p: Provider, url: Option<string>,
                           load: LoadFaults, f: CommitFaults)
    requires |load.migrate| == |Run(Empty(keychain), events).disk|
    ensures var s := Run(Empty(keychain), events);
      var (t, r) := Save(s, p, url, load, f);
      var key := CredentialKey(TargetId(p));
      var refused := Blank(p.displayLabel) || url.None? || !load.readable;
      var through := !refused && GoesThrough(s, key, AsSecret(p.apiKey), f);
      && (r.Success? <==> through && f.readBack)
      && (through ==>
           t.disk == Upsert(s.disk, Stripped(p.(id := TargetId(p), baseUrl := url.value)))
           && t.keychain == Put(s.keychain, key, AsSecret(p.apiKey)))
      && (!through ==> t.disk == s.disk)
      && (!through ==> (t == s <==> refused || Undone(s, key, AsSecret(p.apiKey), f)))
  {
    RunKeepsWell(keychain, events);
    var s := Run(Empty(keychain), events);
    NothingToMigrate(s, load);
    if url.Some? {
      var stored := Stripped(p.(id := TargetId(p), baseUrl := url.value));
      SlugifyNormalises(p.displayLabel);
      SlugifyNormalises(p.id);
      UpsertKeeps(s.disk, stored);
      StripKept(Upsert(s.disk, stored));
      CommitIsAllOrNothing(s, CredentialKey(stored.id), AsSecret(p.apiKey), Upsert(s.disk, stored), f);
    }
  }

  /** The same for deleting, which is refused also when there is no such entry. */
  lemma DeleteIsAllOrNothing(keychain: map<string, string>, events: seq<Event>, id: string,
                             load: LoadFaults, f: CommitFaults)
    requires |load.migrate| == |Run(Empty(keychain), events).disk|
    ensures var s := Run(Empty(keychain), events);
      var (t, r) := Delete(s, id, load, f);
      var key := CredentialKey(Slugify(id));
      var refused := !load.readable || !HasId(s.disk, Slugify(id));
      var through := !refused && GoesThrough(s, key, None, f);
      && (r.Success? <==> through && f.readBack)
      && (through ==> t == State(RemoveId(s.disk, Slugify(id)), Put(s.keychain, key, None)))
      && (!through ==> t.disk == s.disk)
      && (!through ==> (t == s <==> refused || Undone(s, key, None, f)))
  {
    RunKeepsWell(keychain, events);
    var s := Run(Empty(keychain), events);
    var remaining := RemoveId(s.disk, Slugify(id));
    NothingToMigrate(s, load);
    RemoveShortens(s.disk, Slugify(id));
    RemoveKeeps(s.disk, Slugify(id));
    StripKept(remaining);
    CommitIsAllOrNothing(s, CredentialKey(Slugify(id)), None, remaining, f);
  }

  predicate HasId(ps: seq<Provider>, id: string) {
    exists i :: 0 <= i < |ps| && ps[i].id == id
  }

  lemma {:induction false} RemoveShortens(ps: seq<Provider>, id: string)
    ensures |RemoveId(ps, id)| <= |ps|
    ensures |RemoveId(ps, id)| == |ps| <==> !HasId(ps, id)
  {
    if ps != [] {
      RemoveShortens(ps[1..], id);
      assert HasId(ps, id) <==> ps[0].id == id || HasId(ps[1..], id) by {
        if HasId(ps, id) && ps[0].id != id {
          var i :| 0 <= i < |ps| && ps[i].id == id;
          assert ps[1..][i - 1].id == id;
        }
      }
    }
  }

  /** The rollback is not read back: one that claims success without effect leaves the
      new secret beside the old metadata and is reported as a plain save failure. */
  lemma SilentRollbackDiverges(s: State, key: string, secret: string, config: seq<Provider>)
    requires Read(s.keychain, key) != Some(secret)
    ensures Commit(s, key, Some(secret), config, CommitFaults(true, Works, true, false, Silent, true))
      == (s.(keychain := s.keychain[key := secret]), Failure(SaveFailed))
    ensures !Undone(s, key, Some(secret), CommitFaults(true, Works, true, false, Silent, true))
  {
  }

  /** A write that works but cannot be read back returns at once, with no rollback: the new
      secret stands beside the old metadata. */
  lemma UnverifiedWriteStays(s: State, key: string, secret: string, config: seq<Provider>, rollback: KeyOutcome)
    requires Read(s.keychain, key) != Some(secret)
    ensures Commit(s, key, Some(secret), config, CommitFaults(true, Works, false, true, rollback, true))
      == (s.(keychain := s.keychain[key := secret]), Failure(KeychainFailed))
    ensures !Undone(s, key, Some(secret), CommitFaults(true, Works, false, true, rollback, true))
  {
  }
}
