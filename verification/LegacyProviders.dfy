/** Custom providers from a configuration written before ids were normalised and keys
    moved to the keychain: what migration, saving and deleting do to such entries. */
module LegacyProviders {
  import opened Wrappers
  import opened Text
  import opened Slugs
  import opened Providers

  // ----- one slot, one entry

  /** No two entries share a keychain slot. */
  predicate SlotsUnique(ps: seq<Provider>) {
    forall i, j :: 0 <= i < j < |ps| ==> CredentialKey(ps[i].id) != CredentialKey(ps[j].id)
  }

  lemma KeptSlotsUnique(ps: seq<Provider>)
    requires IdsKept(ps)
    ensures SlotsUnique(ps)
  {
    forall i, j | 0 <= i < j < |ps|
      ensures CredentialKey(ps[i].id) != CredentialKey(ps[j].id)
    {
      SlugifyNormalises(ps[i].id);
      SlugifyNormalises(ps[j].id);
      CredentialKeyInjective(ps[i].id, ps[j].id);
    }
  }

  predicate SameIds(a: seq<Provider>, b: seq<Provider>) {
    |a| == |b| && forall i :: 0 <= i < |a| ==> a[i].id == b[i].id
  }

  lemma LoadKeepsIds(s: State, f: LoadFaults)
    requires |f.migrate| == |s.disk|
    ensures SameIds(Load(s, f).0.disk, s.disk)
    ensures Load(s, f).1.Success? ==> SameIds(Load(s, f).1.value, s.disk)
  {
  }

  lemma SameIdsKept(a: seq<Provider>, b: seq<Provider>)
    requires SameIds(a, b) && IdsKept(b)
    ensures IdsKept(a)
  {
  }

  lemma StepKeepsIds(s: State, e: Event)
    requires IdsKept(s.disk)
    ensures IdsKept(Step(s, e).disk)
  {
    var load := Resize(e.load, |s.disk|);
    LoadKeepsIds(s, load);
    var (loaded, config) := Load(s, load);
    SameIdsKept(loaded.disk, s.disk);
    if config.Success? {
      SameIdsKept(config.value, s.disk);
      match e
      case LoadEvent(_) =>
      case SaveEvent(p, url, _, f) =>
        SlugifyNormalises(p.displayLabel);
        SlugifyNormalises(p.id);
        if url.Some? {
          var stored := Stripped(p.(id := TargetId(p), baseUrl := url.value));
          UpsertKeeps(config.value, stored);
          CommitKeeps(loaded, CredentialKey(stored.id), AsSecret(p.apiKey), Upsert(config.value, stored), f);
        }
      case DeleteEvent(id, _, f) =>
        RemoveKeeps(config.value, Slugify(id));
        CommitKeeps(loaded, CredentialKey(Slugify(id)), None, RemoveId(config.value, Slugify(id)), f);
    }
  }

  lemma {:induction false} RunKeepsIds(start: State, events: seq<Event>)
    requires IdsKept(start.disk)
    ensures IdsKept(Run(start, events).disk)
  {
    if events != [] {
      RunKeepsIds(start, events[..|events| - 1]);
      StepKeepsIds(Run(start, events[..|events| - 1]), events[|events| - 1]);
    }
  }

  const NO_COMMIT_FAULTS: CommitFaults := CommitFaults(true, Works, true, true, Works, true)

  /** Saving, with every access working, under the slug of `id`. */
  function SaveUnder(id: string, secret: string, n: nat): Event {
    SaveEvent(Provider(Slugify(id), "x", [], secret, [], true), Some([]), NoFaults(n), NO_COMMIT_FAULTS)
  }

  lemma SaveUnderTargets(id: string, secret: string, n: nat)
    ensures Target(SaveUnder(id, secret, n)) == Some(Slugify(id))
    ensures !Blank(SaveUnder(id, secret, n).provider.displayLabel)
  {
    SlugifyNormalises(id);
    SlugifyNormalises(Slugify(id));
    SlugIsNotBlank(Slugify(id));
    assert !IsWhitespace("x"[0]);
  }

  lemma SlugIsNotBlank(slug: string)
    requires IsSlug(slug)
    ensures !Blank(slug)
  {
    assert IsLowerAlnum(slug[0]);
    assert !IsWhitespace(slug[0]);
  }

  lemma CleanLoad(s: State)
    ensures Load(s, NoFaults(|s.disk|)).1 == Success(ClearAll(s.disk))
  {
    FaultFreeSucceeds(Entries(s.disk), s.keychain, |s.disk|);
  }

  function StoredUnder(id: string): Provider {
    Provider(Slugify(id), "x", [], [], [], true)
  }

  lemma SaveUnderWorks(s: State, id: string, secret: string)
    ensures Step(s, SaveUnder(id, secret, |s.disk|)) ==
      State(StripAll(Upsert(ClearAll(s.disk), StoredUnder(id))),
            Put(Load(s, NoFaults(|s.disk|)).0.keychain, CredentialKey(Slugify(id)), AsSecret(secret)))
  {
    var e := SaveUnder(id, secret, |s.disk|);
    var loaded := Load(s, e.load).0;
    assert Resize(e.load, |s.disk|) == e.load;
    SaveUnderTargets(id, secret, |s.disk|);
    CleanLoad(s);
    assert Stripped(e.provider.(id := Slugify(id), baseUrl := [])) == StoredUnder(id);
    CommitIsAllOrNothing(loaded, CredentialKey(Slugify(id)), AsSecret(secret),
                         Upsert(ClearAll(s.disk), StoredUnder(id)), NO_COMMIT_FAULTS);
  }

  lemma SharedSlot(ps: seq<Provider>, i: nat)
    requires i < |ps| && !IsSlug(ps[i].id)
    ensures var after := StripAll(Upsert(ClearAll(ps), StoredUnder(ps[i].id)));
      !SlotsUnique(after) && Stripped(ps[i]) in after
  {
    var id := ps[i].id;
    var after := StripAll(Upsert(ClearAll(ps), StoredUnder(id)));
    var j := FindId(ClearAll(ps), Slugify(id));
    SlugifyNormalises(id);
    SlugifyNormalises(Slugify(id));
    CredentialKeyInjective(id, Slugify(id));
    assert after[i] == Stripped(ps[i]) && after[j].id == Slugify(id) && i != j;
  }

  /** Beside an entry whose id is not a slug, saving under its slug adds a second entry on
      the same keychain slot, and the saved secret replaces the one stored there. */
  lemma SharedSlotReplacesSecret(s: State, i: nat, secret: string)
    requires i < |s.disk| && !IsSlug(s.disk[i].id)
    ensures var t := Step(s, SaveUnder(s.disk[i].id, secret, |s.disk|));
      && !SlotsUnique(t.disk)
      && Stripped(s.disk[i]) in t.disk
      && Read(t.keychain, CredentialKey(s.disk[i].id)) == AsSecret(secret)
  {
    var id := s.disk[i].id;
    SaveUnderWorks(s, id, secret);
    SharedSlot(s.disk, i);
    SlugifyNormalises(id);
    SlugifyNormalises(Slugify(id));
    CredentialKeyInjective(id, Slugify(id));
  }

  lemma RunOne(start: State, e: Event)
    ensures Run(start, [e]) == Step(start, e)
  {
    assert [e][..0] == [];
  }

  /** Every run from a configuration keeps one entry per keychain slot exactly when its ids
      are slugs, each used once. */
  lemma SlotsStayUniqueExactly(start: State)
    ensures (forall events :: SlotsUnique(Run(start, events).disk)) <==> IdsKept(start.disk)
  {
    if IdsKept(start.disk) {
      forall events
        ensures SlotsUnique(Run(start, events).disk)
      {
        RunKeepsIds(start, events);
        KeptSlotsUnique(Run(start, events).disk);
      }
    } else {
      var events := SharingRun(start);
      assert !SlotsUnique(Run(start, events).disk);
    }
  }

  lemma SharingRun(start: State) returns (events: seq<Event>)
    requires !IdsKept(start.disk)
    ensures !SlotsUnique(Run(start, events).disk)
  {
    if i :| 0 <= i < |start.disk| && !IsSlug(start.disk[i].id) {
      events := [SaveUnder(start.disk[i].id, [], |start.disk|)];
      RunOne(start, events[0]);
      SharedSlotReplacesSecret(start, i, []);
    } else {
      events := [];
    }
  }

  // ----- entries that no operation names

  /** Saving and deleting change no other entry but for clearing its key. */
  lemma StepKeepsEntry(s: State, e: Event, q: Provider)
    requires Target(e) != Some(q.id)
    ensures Stripped(q) in StripAll(Step(s, e).disk) <==> Stripped(q) in StripAll(s.disk)
  {
    var load := Resize(e.load, |s.disk|);
    var (loaded, config) := Load(s, load);
    StripIgnoresLoad(s, load, q);
    if config.Success? {
      match e
      case LoadEvent(_) =>
      case SaveEvent(p, url, _, f) =>
        if url.Some? {
          var stored := Stripped(p.(id := TargetId(p), baseUrl := url.value));
          SlugifyNormalises(p.displayLabel);
          SlugifyNormalises(p.id);
          StripUpsert(config.value, stored, q);
          CommitTouchesOneKey(loaded, CredentialKey(stored.id), [], AsSecret(p.apiKey), Upsert(config.value, stored),
                              f);
          StripTwice(Upsert(config.value, stored));
        }
      case DeleteEvent(id, _, f) =>
        var remaining := RemoveId(config.value, Slugify(id));
        StripRemove(config.value, Slugify(id), q);
        CommitTouchesOneKey(loaded, CredentialKey(Slugify(id)), [], None, remaining, f);
        StripTwice(remaining);
    }
  }

  lemma StripTwice(ps: seq<Provider>)
    ensures StripAll(StripAll(ps)) == StripAll(ps)
  {
  }

  lemma StripIgnoresLoad(s: State, f: LoadFaults, q: Provider)
    requires |f.migrate| == |s.disk|
    ensures StripAll(Load(s, f).0.disk) == StripAll(s.disk)
    ensures Load(s, f).1.Success? ==> StripAll(Load(s, f).1.value) == StripAll(s.disk)
  {
  }

  lemma StripUpsert(ps: seq<Provider>, p: Provider, q: Provider)
    requires p.id != q.id
    ensures Stripped(q) in StripAll(Upsert(ps, p)) <==> Stripped(q) in StripAll(ps)
  {
    var i := FindId(ps, p.id);
    if i < |ps| {
      assert StripAll(ps[i := p]) == StripAll(ps)[i := Stripped(p)];
      if Stripped(q) in StripAll(ps) {
        var k :| 0 <= k < |ps| && StripAll(ps)[k] == Stripped(q);
        assert StripAll(Upsert(ps, p))[k] == Stripped(q);
      }
    } else {
      assert StripAll(ps + [p]) == StripAll(ps) + [Stripped(p)];
    }
  }

  lemma {:induction false} StripRemove(ps: seq<Provider>, id: string, q: Provider)
    requires id != q.id
    ensures Stripped(q) in StripAll(RemoveId(ps, id)) <==> Stripped(q) in StripAll(ps)
  {
    if ps != [] {
      var first, rest := if ps[0].id == id then [] else [ps[0]], RemoveId(ps[1..], id);
      StripRemove(ps[1..], id, q);
      assert RemoveId(ps, id) == first + rest;
      assert StripAll(first + rest) == StripAll(first) + StripAll(rest);
      assert StripAll(ps) == [Stripped(ps[0])] + StripAll(ps[1..]);
      assert StripAll([ps[0]]) == [Stripped(ps[0])];
    }
  }

  /** An entry stays, its key apart, through every run whose operations do not name its id. */
  lemma {:induction false} UnnamedEntriesStay(start: State, events: seq<Event>, q: Provider)
    requires forall k :: 0 <= k < |events| ==> Target(events[k]) != Some(q.id)
    ensures Stripped(q) in StripAll(Run(start, events).disk) <==> Stripped(q) in StripAll(start.disk)
  {
    if events != [] {
      UnnamedEntriesStay(start, events[..|events| - 1], q);
      StepKeepsEntry(Run(start, events[..|events| - 1]), events[|events| - 1], q);
    }
  }

  /** Operations name slugs only, so an entry under any other id can be neither replaced nor
      deleted by any run. */
  lemma NonSlugEntriesStay(start: State, events: seq<Event>, q: Provider)
    requires !IsSlug(q.id)
    ensures Stripped(q) in StripAll(Run(start, events).disk) <==> Stripped(q) in StripAll(start.disk)
  {
    forall k | 0 <= k < |events|
      ensures Target(events[k]) != Some(q.id)
    {
      match events[k]
      case LoadEvent(_) =>
      case SaveEvent(p, _, _, _) =>
        SlugifyNormalises(p.id);
        SlugifyNormalises(p.displayLabel);
      case DeleteEvent(id, _, _) => SlugifyNormalises(id);
    }
    UnnamedEntriesStay(start, events, q);
  }

  lemma {:induction false} RemovedIsGone(ps: seq<Provider>, q: Provider)
    ensures Stripped(q) !in StripAll(RemoveId(ps, q.id))
  {
    if ps != [] {
      var first, rest := if ps[0].id == q.id then [] else [ps[0]], RemoveId(ps[1..], q.id);
      RemovedIsGone(ps[1..], q);
      assert StripAll(first + rest) == StripAll(first) + StripAll(rest);
    }
  }

  /** Deleting, with every access working. */
  function DeleteOf(id: string, n: nat): Event {
    DeleteEvent(id, NoFaults(n), NO_COMMIT_FAULTS)
  }

  lemma SlugEntryDeleted(start: State, q: Provider)
    requires IsSlug(q.id) && Stripped(q) in StripAll(start.disk)
    ensures Stripped(q) !in StripAll(Step(start, DeleteOf(q.id, |start.disk|)).disk)
  {
    var e := DeleteOf(q.id, |start.disk|);
    var loaded, config := Load(start, e.load).0, ClearAll(start.disk);
    var remaining := RemoveId(config, q.id);
    assert Resize(e.load, |start.disk|) == e.load;
    SlugifyNormalises(q.id);
    CleanLoad(start);
    RemovedIsGone(config, q);
    RemoveShortens(config, q.id);
    var i :| 0 <= i < |start.disk| && StripAll(start.disk)[i] == Stripped(q);
    assert config[i].id == q.id;
    CommitIsAllOrNothing(loaded, CredentialKey(q.id), None, remaining, NO_COMMIT_FAULTS);
    StripTwice(remaining);
  }

  /** An entry of a configuration can be removed by some run exactly when its id is a slug. */
  lemma DeletableExactlySlugs(start: State, q: Provider)
    requires Stripped(q) in StripAll(start.disk)
    ensures (exists events :: Stripped(q) !in StripAll(Run(start, events).disk)) <==> IsSlug(q.id)
  {
    if IsSlug(q.id) {
      var e := DeleteOf(q.id, |start.disk|);
      SlugEntryDeleted(start, q);
      RunOne(start, e);
      assert Stripped(q) !in StripAll(Run(start, [e]).disk);
    } else {
      forall events
        ensures Stripped(q) in StripAll(Run(start, events).disk)
      {
        NonSlugEntriesStay(start, events, q);
      }
    }
  }

  // ----- secrets that no operation names

  /** Some entry on disk still carries the secret bound for the slot. */
  predicate OnDisk(ps: seq<Provider>, key: string, secret: string) {
    exists i :: 0 <= i < |ps| && EntryOf(ps[i]) == Entry(key, Some(secret))
  }

  /** No entry on disk carries another secret for the slot. */
  predicate NoOther(ps: seq<Provider>, key: string, secret: string) {
    forall i :: 0 <= i < |ps| && EntryOf(ps[i]).key == key ==> EntryOf(ps[i]).secret in {None, Some(secret)}
  }

  predicate NoSecrets(ps: seq<Provider>) {
    forall i :: 0 <= i < |ps| ==> AsSecret(ps[i].apiKey).None?
  }

  predicate Survives(s: State, key: string, secret: string) {
    OnDisk(s.disk, key, secret) || Read(s.keychain, key) == Some(secret)
  }

  predicate Kept(s: State, key: string, secret: string) {
    NoOther(s.disk, key, secret) && Survives(s, key, secret)
  }

  predicate Carries(es: seq<Entry>, n: nat, e: Entry)
    requires n <= |es|
  {
    exists i :: 0 <= i < n && es[i] == e
  }

  lemma CarriesNext(es: seq<Entry>, n: nat, e: Entry)
    requires n < |es| && Carries(es, n + 1, e) && es[n] != e
    ensures Carries(es, n, e)
  {
  }

  lemma {:induction false} MovedSlot(es: seq<Entry>, keychain: map<string, string>, fs: seq<MigrateFault>, n: nat,
                                     key: string, secret: string)
    requires n <= |es| == |fs|
    requires forall i :: 0 <= i < |es| && es[i].key == key ==> es[i].secret in {None, Some(secret)}
    ensures var m := MoveUpTo(es, keychain, fs, n);
      && Read(m.keychain, key) in {Read(keychain, key), Some(secret)}
      && (m.result.Success? && Carries(es, n, Entry(key, Some(secret))) ==> Read(m.keychain, key) == Some(secret))
  {
    if n > 0 {
      var before := MoveUpTo(es, keychain, fs, n - 1);
      MovedSlot(es, keychain, fs, n - 1, key, secret);
      if before.result.Success? {
        MoveNext(es, keychain, fs, n - 1);
        if Carries(es, n, Entry(key, Some(secret))) && es[n - 1] != Entry(key, Some(secret)) {
          CarriesNext(es, n - 1, Entry(key, Some(secret)));
        }
      } else {
        MoveStops(es, keychain, fs, n - 1, n);
      }
    }
  }

  lemma LoadedHasNoSecrets(s: State, f: LoadFaults)
    requires |f.migrate| == |s.disk| && Load(s, f).1.Success?
    ensures NoSecrets(Load(s, f).0.disk)
  {
    MovedSomething(Entries(s.disk), s.keychain, f.migrate, |s.disk|);
    if !MoveAll(s.disk, s.keychain, f.migrate).result.value {
      forall i | 0 <= i < |s.disk|
        ensures AsSecret(s.disk[i].apiKey).None?
      {
        EntryAt(s.disk, i);
      }
    }
  }

  lemma LoadKeepsSecret(s: State, f: LoadFaults, key: string, secret: string)
    requires |f.migrate| == |s.disk| && Kept(s, key, secret)
    ensures Kept(Load(s, f).0, key, secret)
    ensures Load(s, f).1.Success? ==> Read(Load(s, f).0.keychain, key) == Some(secret)
  {
    var es := Entries(s.disk);
    MovedSlot(es, s.keychain, f.migrate, |es|, key, secret);
    assert OnDisk(s.disk, key, secret) ==> Carries(es, |es|, Entry(key, Some(secret))) by {
      if i :| 0 <= i < |s.disk| && EntryOf(s.disk[i]) == Entry(key, Some(secret)) {
        assert es[i] == Entry(key, Some(secret));
      }
    }
    if Load(s, f).1.Success? {
      LoadedHasNoSecrets(s, f);
    }
  }

  lemma NoSecretsNoOther(s: State, key: string, secret: string)
    requires NoSecrets(s.disk) && Read(s.keychain, key) == Some(secret)
    ensures Kept(s, key, secret)
  {
  }

  lemma CommitKeepsSecret(s: State, target: string, change: Option<string>, config: seq<Provider>, f: CommitFaults,
                          key: string, secret: string)
    requires NoSecrets(s.disk) && Read(s.keychain, key) == Some(secret) && target != key
    ensures Kept(Commit(s, target, change, config, f).0, key, secret)
  {
    CommitTouchesOneKey(s, target, key, change, config, f);
    NoSecretsNoOther(Commit(s, target, change, config, f).0, key, secret);
  }

  lemma StepKeepsSecret(s: State, e: Event, id: string, secret: string)
    requires Kept(s, CredentialKey(id), secret) && Target(e) != Some(Slugify(id))
    ensures Kept(Step(s, e), CredentialKey(id), secret)
  {
    var load := Resize(e.load, |s.disk|);
    LoadKeepsSecret(s, load, CredentialKey(id), secret);
    var (loaded, config) := Load(s, load);
    if config.Success? {
      LoadedHasNoSecrets(s, load);
      match e
      case LoadEvent(_) =>
      case SaveEvent(p, url, _, f) =>
        SlotOfTarget(if Blank(p.id) then p.displayLabel else p.id, id);
        if url.Some? {
          var stored := Stripped(p.(id := TargetId(p), baseUrl := url.value));
          CommitKeepsSecret(loaded, CredentialKey(stored.id), AsSecret(p.apiKey), Upsert(config.value, stored), f,
                            CredentialKey(id), secret);
        }
      case DeleteEvent(target, _, f) =>
        SlotOfTarget(target, id);
        CommitKeepsSecret(loaded, CredentialKey(Slugify(target)), None, RemoveId(config.value, Slugify(target)), f,
                          CredentialKey(id), secret);
    }
  }

  lemma SlotOfTarget(name: string, id: string)
    ensures CredentialKey(Slugify(name)) == CredentialKey(id) <==> Slugify(name) == Slugify(id)
  {
    SlugifyNormalises(name);
    SlugifyNormalises(Slugify(name));
    CredentialKeyInjective(Slugify(name), id);
  }

  predicate Unnamed(events: seq<Event>, id: string) {
    forall k :: 0 <= k < |events| ==> Target(events[k]) != Some(Slugify(id))
  }

  lemma {:induction false} RunKeepsSecret(start: State, events: seq<Event>, id: string, secret: string)
    requires Kept(start, CredentialKey(id), secret) && Unnamed(events, id)
    ensures Kept(Run(start, events), CredentialKey(id), secret)
  {
    if events != [] {
      RunKeepsSecret(start, events[..|events| - 1], id, secret);
      StepKeepsSecret(Run(start, events[..|events| - 1]), events[|events| - 1], id, secret);
    }
  }

  lemma CompatibleKeeps(start: State, i: nat)
    requires Compatible(start.disk) && i < |start.disk| && AsSecret(start.disk[i].apiKey).Some?
    ensures Kept(start, CredentialKey(start.disk[i].id), AsSecret(start.disk[i].apiKey).value)
  {
    var key, secret := CredentialKey(start.disk[i].id), AsSecret(start.disk[i].apiKey).value;
    assert EntryOf(start.disk[i]) == Entry(key, Some(secret));
    forall j | 0 <= j < |start.disk| && EntryOf(start.disk[j]).key == key
      ensures EntryOf(start.disk[j]).secret in {None, Some(secret)}
    {
      CredentialKeyInjective(start.disk[i].id, start.disk[j].id);
    }
  }

  /** The secret of entry `i` outlives the run, unless an operation names its slug. */
  predicate SecretOutlives(start: State, events: seq<Event>, i: nat)
    requires i < |start.disk|
  {
    AsSecret(start.disk[i].apiKey).Some? && Unnamed(events, start.disk[i].id) ==>
      Survives(Run(start, events), CredentialKey(start.disk[i].id), AsSecret(start.disk[i].apiKey).value)
  }

  lemma ClashLosesOne(start: State)
    requires !Compatible(start.disk)
    ensures exists i: nat :: i < |start.disk| && !SecretOutlives(start, [LoadEvent(NoFaults(|start.disk|))], i)
  {
    var e := LoadEvent(NoFaults(|start.disk|));
    MigrationExact(start);
    var t := Load(start, e.load).0;
    var i :| 0 <= i < |start.disk| && !Holds(t.keychain, Entries(start.disk)[i]);
    EntryAt(start.disk, i);
    RunOne(start, e);
    CleanLoad(start);
    LoadedHasNoSecrets(start, e.load);
    assert Resize(e.load, |start.disk|) == e.load;
    var key, secret := CredentialKey(start.disk[i].id), AsSecret(start.disk[i].apiKey).value;
    NotSurviving(t, key, secret);
    assert Unnamed([e], start.disk[i].id);
    assert !SecretOutlives(start, [e], i);
  }

  lemma NotSurviving(s: State, key: string, secret: string)
    requires NoSecrets(s.disk) && Read(s.keychain, key) != Some(secret)
    ensures !Survives(s, key, secret)
  {
  }

  /** Whatever fails along the way, every plaintext secret of a configuration stays on disk or
      in its slot through all runs that do not name its slug, exactly when entries sharing a
      slug share their secret. */
  lemma SecretsOutliveExactly(start: State)
    ensures (forall events, i: nat :: i < |start.disk| ==> SecretOutlives(start, events, i)) <==> Compatible(start.disk)
  {
    if Compatible(start.disk) {
      forall events, i: nat | i < |start.disk|
        ensures SecretOutlives(start, events, i)
      {
        if AsSecret(start.disk[i].apiKey).Some? && Unnamed(events, start.disk[i].id) {
          CompatibleKeeps(start, i);
          RunKeepsSecret(start, events, start.disk[i].id, AsSecret(start.disk[i].apiKey).value);
        }
      }
    } else {
      ClashLosesOne(start);
    }
  }
}
