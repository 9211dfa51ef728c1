/** What saving and deleting a provider leave on disk and in the keychain, entry by entry. */
module SavedProviders {
  import opened Wrappers
  import opened Text
  import opened Slugs
  import opened Providers

  /** Everything of the saved provider but its key, under its slug and checked base URL. */
  predicate StoredAs(stored: Provider, p: Provider, url: string) {
    && stored.id == Slugify(if Blank(p.id) then p.displayLabel else p.id)
    && stored.displayLabel == p.displayLabel
    && stored.baseUrl == url
    && stored.apiKey == ""
    && stored.defaultModel == p.defaultModel
    && stored.enabled == p.enabled
  }

  /** The provider takes the place of the entry with its id, or comes last when there was
      none; every other entry keeps its place. */
  predicate Replaces(before: seq<Provider>, after: seq<Provider>, stored: Provider) {
    if exists p :: p in before && p.id == stored.id
    then
      && |after| == |before|
      && forall i :: 0 <= i < |before| ==> after[i] == if before[i].id == stored.id then stored else before[i]
    else after == before + [stored]
  }

  /** The slot holds the trimmed key, or nothing when the key is blank; other slots are as before. */
  ghost predicate SlotSet(before: map<string, string>, after: map<string, string>, slot: string, key: string) {
    && (Blank(key) ==> slot !in after)
    && (!Blank(key) ==> slot in after && after[slot] == Trim(key))
    && forall other :: other != slot ==> (other in after <==> other in before)
                                         && (other in after ==> after[other] == before[other])
  }

  lemma UpsertReplaces(ps: seq<Provider>, p: Provider)
    requires IdsKept(ps)
    ensures Replaces(ps, Upsert(ps, p), p)
  {
    var i := FindId(ps, p.id);
    if i < |ps| {
      assert ps[i] in ps && ps[i].id == p.id;
    }
  }

  lemma PutSets(keychain: map<string, string>, slot: string, key: string)
    ensures SlotSet(keychain, Put(keychain, slot, AsSecret(key)), slot, key)
  {
    TrimmedEmptyIsBlank(key);
  }

  lemma UpsertStores(ps: seq<Provider>, p: Provider)
    requires IdsKept(ps) && IsSlug(p.id)
    ensures p in Upsert(ps, p) && Replaces(ps, Upsert(ps, p), p) && IdsKept(Upsert(ps, p))
  {
    UpsertReplaces(ps, p);
    UpsertKeeps(ps, p);
    assert Upsert(ps, p)[FindId(ps, p.id)] == p;
  }

  function NameOf(p: Provider): string {
    if Blank(p.id) then p.displayLabel else p.id
  }

  function SlotName(name: string): string {
    "custom_provider_" + Slugify(name) + "_api_key"
  }

  lemma SlotOf(name: string)
    ensures IsSlug(Slugify(name)) && CredentialKey(Slugify(name)) == SlotName(name)
  {
    SlugifyNormalises(name);
    SlugifyNormalises(Slugify(name));
  }

  /** The store after saving `p`. */
  ghost predicate SavedAs(s: State, t: State, p: Provider, url: string) {
    && (exists stored :: StoredAs(stored, p, url) && stored in t.disk && Replaces(s.disk, t.disk, stored))
    && (forall i, j :: 0 <= i < j < |t.disk| ==> t.disk[i].id != t.disk[j].id)
    && SlotSet(s.keychain, t.keychain, "custom_provider_" + Slugify(NameOf(p)) + "_api_key", p.apiKey)
  }

  lemma SavedStore(s: State, p: Provider, url: string)
    requires IdsKept(s.disk)
    ensures SavedAs(s, State(Upsert(s.disk, Stripped(p.(id := Slugify(NameOf(p)), baseUrl := url))),
                             Put(s.keychain, SlotName(NameOf(p)), AsSecret(p.apiKey))), p, url)
  {
    var stored := Stripped(p.(id := Slugify(NameOf(p)), baseUrl := url));
    SlotOf(NameOf(p));
    UpsertStores(s.disk, stored);
    PutSets(s.keychain, SlotName(NameOf(p)), p.apiKey);
    assert StoredAs(stored, p, url);
  }

  /** In every reached state a save that goes through stores exactly the given provider: in the
      place of the entry with its id or last, as the only one with its id, with every other
      entry in its place; and its slot holds its key. */
  lemma SaveStores(keychain: map<string, string>, events: seq<Event>, p: Provider, url: Option<string>,
                   load: LoadFaults, f: CommitFaults)
    requires |load.migrate| == |Run(Empty(keychain), events).disk|
    requires !Blank(p.displayLabel) && url.Some? && load.readable
    requires GoesThrough(Run(Empty(keychain), events), CredentialKey(TargetId(p)), AsSecret(p.apiKey), f)
    ensures var s := Run(Empty(keychain), events); SavedAs(s, Save(s, p, url, load, f).0, p, url.value)
  {
    var s := Run(Empty(keychain), events);
    SaveIsAllOrNothing(keychain, events, p, url, load, f);
    RunKeepsWell(keychain, events);
    SlotOf(NameOf(p));
    SavedStore(s, p, url.value);
    assert TargetId(p) == Slugify(NameOf(p));
  }

  /** The list without the entry at `i`. */
  predicate Drops(before: seq<Provider>, after: seq<Provider>, id: string) {
    exists i :: 0 <= i < |before| && before[i].id == id && after == before[..i] + before[i + 1..]
  }

  lemma {:induction false} RemoveNothing(ps: seq<Provider>, id: string)
    requires forall i :: 0 <= i < |ps| ==> ps[i].id != id
    ensures RemoveId(ps, id) == ps
  {
    if ps != [] {
      RemoveNothing(ps[1..], id);
      assert ps == [ps[0]] + ps[1..];
    }
  }

  lemma {:induction false} RemoveDrops(ps: seq<Provider>, id: string, i: nat)
    requires IdsKept(ps) && i < |ps| && ps[i].id == id
    ensures RemoveId(ps, id) == ps[..i] + ps[i + 1..]
  {
    if i == 0 {
      RemoveNothing(ps[1..], id);
    } else {
      RemoveDrops(ps[1..], id, i - 1);
      assert ps[1..][..i - 1] == ps[1..i] && ps[1..][i..] == ps[i + 1..];
      assert [ps[0]] + ps[1..i] == ps[..i];
    }
  }

  /** The store after deleting the entry with this slug. */
  ghost predicate DeletedFrom(s: State, t: State, slug: string) {
    Drops(s.disk, t.disk, slug) && SlotSet(s.keychain, t.keychain, "custom_provider_" + slug + "_api_key", "")
  }

  lemma DeletedStore(s: State, id: string)
    requires IdsKept(s.disk) && HasId(s.disk, Slugify(id))
    ensures DeletedFrom(s, State(RemoveId(s.disk, Slugify(id)), Put(s.keychain, SlotName(id), None)), Slugify(id))
  {
    var i :| 0 <= i < |s.disk| && s.disk[i].id == Slugify(id);
    RemoveDrops(s.disk, Slugify(id), i);
    PutSets(s.keychain, SlotName(id), "");
  }

  /** In every reached state a delete that goes through drops exactly the entry with that slug
      and empties its slot. */
  lemma DeleteDrops(keychain: map<string, string>, events: seq<Event>, id: string, load: LoadFaults, f: CommitFaults)
    requires |load.migrate| == |Run(Empty(keychain), events).disk|
    requires load.readable && HasId(Run(Empty(keychain), events).disk, Slugify(id))
    requires GoesThrough(Run(Empty(keychain), events), CredentialKey(Slugify(id)), None, f)
    ensures var s := Run(Empty(keychain), events); DeletedFrom(s, Delete(s, id, load, f).0, Slugify(id))
  {
    var s := Run(Empty(keychain), events);
    DeleteIsAllOrNothing(keychain, events, id, load, f);
    RunKeepsWell(keychain, events);
    SlotOf(id);
    DeletedStore(s, id);
  }

  /** A successful call returns the stored list with each provider's secret from its slot. */
  lemma ReturnedListShowsSecrets(s: State, key: string, secret: Option<string>, config: seq<Provider>, f: CommitFaults)
    requires Commit(s, key, secret, config, f).1.Success?
    ensures var (t, r) := Commit(s, key, secret, config, f);
      && |r.value| == |config|
      && forall i :: 0 <= i < |config| ==>
        && r.value[i].id == config[i].id && r.value[i].displayLabel == config[i].displayLabel
        && r.value[i].baseUrl == config[i].baseUrl && r.value[i].defaultModel == config[i].defaultModel
        && r.value[i].enabled == config[i].enabled
        && r.value[i].apiKey ==
          (if CredentialKey(config[i].id) in t.keychain then t.keychain[CredentialKey(config[i].id)] else "")
  {
    CommitIsAllOrNothing(s, key, secret, config, f);
  }

  // ----- what it takes to load the configuration

  /** The fault lets a plaintext key move: the write reports no error and can be read back. */
  predicate Moves(f: MigrateFault) {
    !f.write.Errors? && f.readable
  }

  lemma {:induction false} MovedMeansVerified(es: seq<Entry>, keychain: map<string, string>,
                                              fs: seq<MigrateFault>, n: nat)
    requires n <= |es| == |fs|
    ensures var r := MoveUpTo(es, keychain, fs, n).result;
      && (r.Success? ==> forall i :: 0 <= i < n && es[i].secret.Some? ==> Moves(fs[i]))
      && (r.Success? ==> (r.value <==> exists i :: 0 <= i < n && es[i].secret.Some?))
      && ((forall i :: 0 <= i < n && es[i].secret.Some? ==> Moves(fs[i]) && fs[i].write.Works?) ==> r.Success?)
  {
    if n > 0 {
      MovedMeansVerified(es, keychain, fs, n - 1);
    }
  }

  lemma EntryHasSecret(ps: seq<Provider>, i: nat)
    requires i < |ps|
    ensures Entries(ps)[i].secret.Some? <==> !Blank(ps[i].apiKey)
  {
    TrimmedEmptyIsBlank(ps[i].apiKey);
  }

  /** A configuration is loaded only when it can be read, every plaintext key was written
      without an error and read back, and, if there was one, the stripped configuration was
      saved. Without faults it is loaded. The list has every entry without its key. */
  lemma LoadedMeansVerified(s: State, f: LoadFaults)
    requires |f.migrate| == |s.disk|
    ensures var plain := exists i :: 0 <= i < |s.disk| && !Blank(s.disk[i].apiKey);
      && (Load(s, f).1.Success? ==>
            && f.readable && (plain ==> f.saved)
            && forall i :: 0 <= i < |s.disk| && !Blank(s.disk[i].apiKey) ==>
                 !f.migrate[i].write.Errors? && f.migrate[i].readable)
      && (f.readable && f.saved
          && (forall i :: 0 <= i < |s.disk| ==> f.migrate[i].write.Works? && f.migrate[i].readable) ==>
            Load(s, f).1.Success?)
    ensures Load(s, f).1.Success? ==>
      var ps := Load(s, f).1.value;
      && |ps| == |s.disk|
      && forall i :: 0 <= i < |ps| ==> Blank(ps[i].apiKey) && ps[i].(apiKey := "") == s.disk[i].(apiKey := "")
  {
    MovedMeansVerified(Entries(s.disk), s.keychain, f.migrate, |s.disk|);
    forall i | 0 <= i < |s.disk|
      ensures Entries(s.disk)[i].secret.Some? <==> !Blank(s.disk[i].apiKey)
    {
      EntryHasSecret(s.disk, i);
    }
    if Load(s, f).1.Success? {
      forall i | 0 <= i < |s.disk|
        ensures Blank(ClearAll(s.disk)[i].apiKey)
      {
        TrimmedEmptyIsBlank(s.disk[i].apiKey);
      }
    }
  }

  // ----- what the errors mean

  /** Each way in which a guarded change can fail, and what it then left. */
  lemma CommitErrorsMean(s: State, key: string, secret: Option<string>, config: seq<Provider>, f: CommitFaults)
    ensures var (t, r) := Commit(s, key, secret, config, f);
      && (r == Failure(KeychainFailed) ==> !f.previousReadable || f.write.Errors? || !f.verifyReadable)
      && (r == Failure(NotVerified) ==> !f.write.Errors? && Read(t.keychain, key) != secret)
      && (r == Failure(SaveFailed) ==> !f.saved && !f.rollback.Errors?)
      && (r == Failure(RollbackFailed) ==> !f.saved && f.rollback.Errors?)
      && (r == Failure(ReadBackFailed) ==> f.saved && !f.readBack && t.disk == StripAll(config))
      && (r.Failure? ==> r.error != InvalidInput && r.error != NotFound)
      && (t.disk != s.disk ==> r.Success? || r.error == ReadBackFailed)
  {
  }

  lemma {:induction false} MoveErrors(es: seq<Entry>, keychain: map<string, string>, fs: seq<MigrateFault>, n: nat)
    requires n <= |es| == |fs|
    ensures var r := MoveUpTo(es, keychain, fs, n).result;
      r.Failure? ==> r.error == KeychainFailed || r.error == NotVerified
  {
    if n > 0 {
      MoveErrors(es, keychain, fs, n - 1);
    }
  }

  /** A save is refused as invalid exactly when its label is blank or its base URL was
      rejected; it never fails for want of an entry. */
  lemma SaveRefusedExactly(s: State, p: Provider, url: Option<string>, load: LoadFaults, f: CommitFaults)
    requires |load.migrate| == |s.disk|
    ensures var r := Save(s, p, url, load, f).1;
      && (r == Failure(InvalidInput) <==> Blank(p.displayLabel) || url.None?)
      && r != Failure(NotFound)
  {
    MoveErrors(Entries(s.disk), s.keychain, load.migrate, |s.disk|);
    if !Blank(p.displayLabel) && url.Some? && Load(s, load).1.Success? {
      var stored := Stripped(p.(id := TargetId(p), baseUrl := url.value));
      CommitErrorsMean(Load(s, load).0, CredentialKey(stored.id), AsSecret(p.apiKey),
                       Upsert(Load(s, load).1.value, stored), f);
    }
  }

  lemma {:induction false} RemovalShortens(ps: seq<Provider>, id: string)
    ensures |RemoveId(ps, id)| < |ps| <==> HasId(ps, id)
    ensures |RemoveId(ps, id)| <= |ps|
  {
    if ps != [] {
      RemovalShortens(ps[1..], id);
      assert HasId(ps, id) <==> ps[0].id == id || HasId(ps[1..], id) by {
        assert forall i :: 0 <= i < |ps[1..]| ==> ps[1..][i] == ps[i + 1];
      }
    }
  }

  /** A delete that could load its configuration finds no provider exactly when no entry has
      the slug of the given id; it is never refused as invalid. */
  lemma DeleteMissesExactly(s: State, id: string, load: LoadFaults, f: CommitFaults)
    requires |load.migrate| == |s.disk| && Load(s, load).1.Success?
    ensures var r := Delete(s, id, load, f).1;
      && (r == Failure(NotFound) <==> !HasId(Load(s, load).1.value, Slugify(id)))
      && r != Failure(InvalidInput)
  {
    var loaded, config := Load(s, load).0, Load(s, load).1.value;
    RemovalShortens(config, Slugify(id));
    CommitErrorsMean(loaded, CredentialKey(Slugify(id)), None, RemoveId(config, Slugify(id)), f);
  }

  /** A load that fails reports the file or the keychain. */
  lemma LoadErrorsMean(s: State, f: LoadFaults)
    requires |f.migrate| == |s.disk| && Load(s, f).1.Failure?
    ensures var e := Load(s, f).1.error;
      && (e == SaveFailed || e == KeychainFailed || e == NotVerified)
      && (e == SaveFailed ==> !f.readable || !f.saved)
      && Load(s, f).0.disk == s.disk
  {
    MoveErrors(Entries(s.disk), s.keychain, f.migrate, |s.disk|);
  }
}
