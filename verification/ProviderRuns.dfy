/** Saving and deleting custom providers concurrently: each call loads the configuration and
    later commits a changed copy of it, with other calls in between. */
module ProviderRuns {
  import opened Wrappers
  import opened Text
  import opened Slugs
  import Providers

  /** Where a call is: each constructor names what it does next. */
  datatype Phase =
    | Loading
    | Committing(config: seq<Providers.Provider>)
    | Finished

  datatype Op = Op(call: Providers.Event, phase: Phase)

  datatype State = State(store: Providers.State, ops: seq<Op>)

  datatype Event = Call(call: Providers.Event) | Load(op: nat) | Commit(op: nat)

  function Start(keychain: map<string, string>): State {
    State(Providers.Empty(keychain), [])
  }

  predicate At(s: State, o: nat) {
    o < |s.ops|
  }

  function Goto(s: State, o: nat, store: Providers.State, phase: Phase): State
    requires At(s, o)
  {
    State(store, s.ops[o := s.ops[o].(phase := phase)])
  }

  /** Saving checks its input before it loads. */
  predicate Refused(call: Providers.Event) {
    call.SaveEvent? && (Blank(call.provider.displayLabel) || call.url.None?)
  }

  /** The change a call commits, given the configuration it loaded. */
  function Committed(store: Providers.State, call: Providers.Event, config: seq<Providers.Provider>): Providers.State {
    match call
    case LoadEvent(_) => store
    case SaveEvent(p, url, _, f) =>
      if url.None? then store
      else
        var stored := Providers.Stripped(p.(id := Providers.TargetId(p), baseUrl := url.value));
        var changed := Providers.Upsert(config, stored);
        Providers.Commit(store, CredentialKey(stored.id), Providers.AsSecret(p.apiKey), changed, f).0
    case DeleteEvent(id, _, f) =>
      var remaining := Providers.RemoveId(config, Slugify(id));
      if |remaining| == |config| then store
      else Providers.Commit(store, CredentialKey(Slugify(id)), None, remaining, f).0
  }

  function Loaded(store: Providers.State, call: Providers.Event)
    : (Providers.State, Result<seq<Providers.Provider>, Providers.ProviderError>)
  {
    Providers.Load(store, Providers.Resize(call.load, |store.disk|))
  }

  /** `joined` makes loading and committing one step; in the program nothing keeps other calls
      out in between, so `joined` is false of it. */
  function Step(joined: bool, s: State, e: Event): State {
    match e
    case Call(call) => s.(ops := s.ops + [Op(call, Loading)])
    case Load(o) =>
      if !At(s, o) || s.ops[o].phase != Loading then s
      else if Refused(s.ops[o].call) then Goto(s, o, s.store, Finished)
      else
        var (store, config) := Loaded(s.store, s.ops[o].call);
        if config.Failure? then Goto(s, o, store, Finished)
        else if joined then Goto(s, o, Committed(store, s.ops[o].call, config.value), Finished)
        else Goto(s, o, store, Committing(config.value))
    case Commit(o) =>
      if !At(s, o) || !s.ops[o].phase.Committing? then s
      else Goto(s, o, Committed(s.store, s.ops[o].call, s.ops[o].phase.config), Finished)
  }

  function Run(joined: bool, keychain: map<string, string>, events: seq<Event>): State {
    if events == [] then Start(keychain)
    else Step(joined, Run(joined, keychain, events[..|events| - 1]), events[|events| - 1])
  }

  /** The step performed by one call, and which. */
  predicate Performs(e: Event, o: nat) {
    (e.Load? || e.Commit?) && e.op == o
  }

  /** The entry and the secret of `id` are the same in both stores. */
  ghost predicate SameProvider(s: Providers.State, t: Providers.State, id: string) {
    && Providers.Read(t.keychain, CredentialKey(id)) == Providers.Read(s.keychain, CredentialKey(id))
    && forall p: Providers.Provider :: p.id == id ==> (p in t.disk <==> p in s.disk)
  }

  /** The event leaves alone every provider that the call performing it does not name. */
  ghost predicate OthersSurvive(joined: bool, s: State, e: Event) {
    forall o, id :: 0 <= o < |s.ops| && Performs(e, o) && IsSlug(id)
                    && Providers.Target(s.ops[o].call) != Some(id) ==>
      SameProvider(s.store, Step(joined, s, e).store, id)
  }

  // ----- one step: the calls run one after the other

  lemma JoinedStep(s: State, o: nat)
    requires At(s, o) && s.ops[o].phase == Loading
    ensures Step(true, s, Load(o)).store == Providers.Step(s.store, s.ops[o].call)
  {
  }

  lemma {:induction false} NeverCommitting(keychain: map<string, string>, events: seq<Event>, o: nat)
    requires At(Run(true, keychain, events), o)
    ensures !Run(true, keychain, events).ops[o].phase.Committing?
  {
    if events != [] && At(Run(true, keychain, events[..|events| - 1]), o) {
      NeverCommitting(keychain, events[..|events| - 1], o);
    }
  }

  lemma JoinedStoreStep(s: State, e: Event)
    requires forall o :: 0 <= o < |s.ops| ==> !s.ops[o].phase.Committing?
    ensures || Step(true, s, e).store == s.store
            || (e.Load? && At(s, e.op) && Step(true, s, e).store == Providers.Step(s.store, s.ops[e.op].call))
  {
    if e.Load? && At(s, e.op) && s.ops[e.op].phase == Loading {
      JoinedStep(s, e.op);
    }
  }

  /** The store of a joined run is that of some sequence of whole calls. */
  lemma {:induction false} JoinedIsSequential(keychain: map<string, string>, events: seq<Event>)
    returns (calls: seq<Providers.Event>)
    ensures Run(true, keychain, events).store == Providers.Run(Providers.Empty(keychain), calls)
  {
    calls := [];
    if events != [] {
      var s, e := Run(true, keychain, events[..|events| - 1]), events[|events| - 1];
      var before := JoinedIsSequential(keychain, events[..|events| - 1]);
      calls := before;
      forall o | 0 <= o < |s.ops|
        ensures !s.ops[o].phase.Committing?
      {
        NeverCommitting(keychain, events[..|events| - 1], o);
      }
      JoinedStoreStep(s, e);
      if Step(true, s, e).store != s.store {
        calls := before + [s.ops[e.op].call];
        assert calls[..|before|] == before;
      }
    }
  }

  lemma JoinedKeepsOthers(keychain: map<string, string>, events: seq<Event>, e: Event)
    ensures OthersSurvive(true, Run(true, keychain, events), e)
  {
    var s := Run(true, keychain, events);
    var calls := JoinedIsSequential(keychain, events);
    forall o | 0 <= o < |s.ops|
      ensures !s.ops[o].phase.Committing?
    {
      NeverCommitting(keychain, events, o);
    }
    JoinedStoreStep(s, e);
    forall o, id | 0 <= o < |s.ops| && Performs(e, o) && IsSlug(id) && Providers.Target(s.ops[o].call) != Some(id)
      ensures SameProvider(s.store, Step(true, s, e).store, id)
    {
      Providers.OthersUntouched(keychain, calls, s.ops[o].call, id);
    }
  }

  // ----- what every interleaving keeps

  /** What a call still has to commit is as well kept as what is stored. */
  predicate Kept(s: State) {
    && Providers.WellKept(s.store.disk)
    && forall o :: 0 <= o < |s.ops| && s.ops[o].phase.Committing? ==> Providers.WellKept(s.ops[o].phase.config)
  }

  lemma CommittedKeeps(store: Providers.State, call: Providers.Event, config: seq<Providers.Provider>)
    requires Providers.WellKept(store.disk) && Providers.WellKept(config)
    ensures Providers.WellKept(Committed(store, call, config).disk)
  {
    match call
    case LoadEvent(_) =>
    case SaveEvent(p, url, _, f) =>
      if url.Some? {
        var stored := Providers.Stripped(p.(id := Providers.TargetId(p), baseUrl := url.value));
        SlugifyNormalises(p.id);
        SlugifyNormalises(p.displayLabel);
        Providers.UpsertKeeps(config, stored);
        Providers.CommitKeeps(store, CredentialKey(stored.id), Providers.AsSecret(p.apiKey),
                              Providers.Upsert(config, stored), f);
      }
    case DeleteEvent(id, _, f) =>
      var remaining := Providers.RemoveId(config, Slugify(id));
      Providers.RemoveKeeps(config, Slugify(id));
      Providers.CommitKeeps(store, CredentialKey(Slugify(id)), None, remaining, f);
  }

  lemma LoadedKeeps(store: Providers.State, call: Providers.Event)
    requires Providers.WellKept(store.disk)
    ensures Loaded(store, call).0 == store
    ensures Loaded(store, call).1.Success? ==> Providers.WellKept(Loaded(store, call).1.value)
  {
    Providers.NothingToMigrate(store, Providers.Resize(call.load, |store.disk|));
  }

  lemma StepKeeps(joined: bool, s: State, e: Event)
    requires Kept(s)
    ensures Kept(Step(joined, s, e))
  {
    match e
    case Call(_) =>
    case Load(o) =>
      if At(s, o) && s.ops[o].phase == Loading && !Refused(s.ops[o].call) {
        LoadedKeeps(s.store, s.ops[o].call);
        var (store, config) := Loaded(s.store, s.ops[o].call);
        if config.Success? {
          CommittedKeeps(store, s.ops[o].call, config.value);
        }
      }
    case Commit(o) =>
      if At(s, o) && s.ops[o].phase.Committing? {
        CommittedKeeps(s.store, s.ops[o].call, s.ops[o].phase.config);
      }
  }

  /** However calls interleave and whatever fails, the stored ids are unique slugs and no key
      is on disk. */
  lemma {:induction false} RunKeeps(joined: bool, keychain: map<string, string>, events: seq<Event>)
    ensures Kept(Run(joined, keychain, events))
  {
    if events != [] {
      RunKeeps(joined, keychain, events[..|events| - 1]);
      StepKeeps(joined, Run(joined, keychain, events[..|events| - 1]), events[|events| - 1]);
    }
  }

  // ----- two steps: a save can undo another

  const NO_LOAD_FAULTS: Providers.LoadFaults := Providers.LoadFaults(true, [], true)
  const NO_FAULTS: Providers.CommitFaults :=
    Providers.CommitFaults(true, Providers.Works, true, true, Providers.Works, true)

  function Entry(id: string): Providers.Provider {
    Providers.Provider(id, "x", [], [], [], true)
  }

  function SaveOf(id: string): Providers.Event {
    Providers.SaveEvent(Entry(id), Some([]), NO_LOAD_FAULTS, NO_FAULTS)
  }

  lemma SaveTargets(id: string)
    requires id == "a" || id == "b"
    ensures IsSlug(id) && Providers.TargetId(Entry(id)) == id && !Refused(SaveOf(id))
    ensures Providers.AsSecret([]) == None
  {
    SlugifyNormalises(id);
    assert !IsWhitespace(id[0]) && !IsWhitespace("x"[0]);
  }

  lemma LoadsEmpty(keychain: map<string, string>, id: string)
    ensures Loaded(Providers.Empty(keychain), SaveOf(id)) == (Providers.Empty(keychain), Success([]))
  {
    Providers.NothingToMigrate(Providers.Empty(keychain), Providers.Resize(NO_LOAD_FAULTS, 0));
  }

  lemma CommitsAlone(store: Providers.State, id: string)
    requires id == "a" || id == "b"
    ensures Committed(store, SaveOf(id), []).disk == [Entry(id)]
  {
    SaveTargets(id);
    Providers.CommitIsAllOrNothing(store, CredentialKey(id), None, [Entry(id)], NO_FAULTS);
    assert Providers.StripAll([Entry(id)]) == [Entry(id)];
  }

  ghost predicate Reachable(keychain: map<string, string>, s: State) {
    exists events :: Run(false, keychain, events) == s
  }

  lemma ReachStep(keychain: map<string, string>, s: State, e: Event, t: State)
    requires Reachable(keychain, s) && Step(false, s, e) == t
    ensures Reachable(keychain, t)
  {
    var events :| Run(false, keychain, events) == s;
    var longer := events + [e];
    assert longer[..|longer| - 1] == events;
    assert Run(false, keychain, longer) == t;
  }

  /** Two saves, of "a" and of "b", and how far each has got. */
  function Both(store: Providers.State, a: Phase, b: Phase): State {
    State(store, [Op(SaveOf("a"), a), Op(SaveOf("b"), b)])
  }

  lemma LoadStep(keychain: map<string, string>, s: State, o: nat, id: string)
    requires (id == "a" || id == "b") && s.store == Providers.Empty(keychain)
    requires o < |s.ops| && s.ops[o] == Op(SaveOf(id), Loading)
    ensures Step(false, s, Load(o)) == Goto(s, o, s.store, Committing([]))
  {
    SaveTargets(id);
    LoadsEmpty(keychain, id);
  }

  lemma BothLoaded(keychain: map<string, string>)
    ensures Reachable(keychain, Both(Providers.Empty(keychain), Committing([]), Committing([])))
  {
    var store := Providers.Empty(keychain);
    var one := State(store, [Op(SaveOf("a"), Loading)]);
    assert Run(false, keychain, []) == Start(keychain);
    ReachStep(keychain, Start(keychain), Call(SaveOf("a")), one);
    ReachStep(keychain, one, Call(SaveOf("b")), Both(store, Loading, Loading));
    LoadStep(keychain, Both(store, Loading, Loading), 0, "a");
    ReachStep(keychain, Both(store, Loading, Loading), Load(0), Both(store, Committing([]), Loading));
    LoadStep(keychain, Both(store, Committing([]), Loading), 1, "b");
    ReachStep(keychain, Both(store, Committing([]), Loading), Load(1), Both(store, Committing([]), Committing([])));
  }

  /** The store once the save of "a" has committed. */
  function FirstSaved(keychain: map<string, string>): Providers.State {
    Committed(Providers.Empty(keychain), SaveOf("a"), [])
  }

  lemma FirstGone(s: Providers.State, t: Providers.State)
    requires s.disk == [Entry("a")] && t.disk == [Entry("b")]
    ensures !SameProvider(s, t, "a")
  {
    assert Entry("a").id == "a" && Entry("b").id == "b";
    assert Entry("a") in s.disk && Entry("a") !in t.disk;
  }

  function SecondLeft(keychain: map<string, string>): State {
    Both(FirstSaved(keychain), Finished, Committing([]))
  }

  lemma FirstCommits(store: Providers.State, b: Phase)
    ensures Step(false, Both(store, Committing([]), b), Commit(0)) ==
      Both(Committed(store, SaveOf("a"), []), Finished, b)
  {
  }

  lemma SecondCommits(store: Providers.State, a: Phase)
    ensures Step(false, Both(store, a, Committing([])), Commit(1)) ==
      Both(Committed(store, SaveOf("b"), []), a, Finished)
  {
  }

  lemma SecondLeftReached(keychain: map<string, string>)
    ensures Reachable(keychain, SecondLeft(keychain))
  {
    var store := Providers.Empty(keychain);
    BothLoaded(keychain);
    FirstCommits(store, Committing([]));
    ReachStep(keychain, Both(store, Committing([]), Committing([])), Commit(0), SecondLeft(keychain));
  }

  lemma SecondCommitted(store: Providers.State)
    ensures Step(false, Both(store, Finished, Committing([])), Commit(1)).store.disk == [Entry("b")]
  {
    SecondCommits(store, Finished);
    CommitsAlone(store, "b");
  }

  /** When two saves both load before either commits, the second removes the first one's entry. */
  lemma SecondSaveUndoesFirst(keychain: map<string, string>)
    ensures Reachable(keychain, SecondLeft(keychain))
    ensures SecondLeft(keychain).store.disk == [Entry("a")]
    ensures Step(false, SecondLeft(keychain), Commit(1)).store.disk == [Entry("b")]
  {
    SecondLeftReached(keychain);
    CommitsAlone(Providers.Empty(keychain), "a");
    SecondCommitted(FirstSaved(keychain));
  }

  lemma SecondBreaks(keychain: map<string, string>)
    ensures !OthersSurvive(false, SecondLeft(keychain), Commit(1))
  {
    var s := SecondLeft(keychain);
    SecondSaveUndoesFirst(keychain);
    SaveTargets("a");
    SaveTargets("b");
    FirstGone(s.store, Step(false, s, Commit(1)).store);
    assert Performs(Commit(1), 1) && Providers.Target(s.ops[1].call) == Some("b");
  }

  lemma BreakingRun() returns (events: seq<Event>)
    ensures !OthersSurvive(false, Run(false, map[], events), Commit(1))
  {
    SecondSaveUndoesFirst(map[]);
    SecondBreaks(map[]);
    events :| Run(false, map[], events) == SecondLeft(map[]);
  }

  /** On all runs every call leaves alone the providers it does not name, exactly when loading
      and committing are one step. */
  lemma OthersSurviveExactlyWhenJoined(joined: bool)
    ensures (forall keychain, events, e :: OthersSurvive(joined, Run(joined, keychain, events), e)) <==> joined
  {
    if joined {
      forall keychain, events, e
        ensures OthersSurvive(joined, Run(joined, keychain, events), e)
      {
        JoinedKeepsOthers(keychain, events, e);
      }
    } else {
      var events := BreakingRun();
      var keychain: map<string, string> := map[];
      assert !OthersSurvive(joined, Run(joined, keychain, events), Commit(1));
    }
  }

  // ----- what a call commits

  /** A call loads once and commits at most once: a failed load ends it. */
  lemma EachStepOnce(joined: bool, s: State, e: Event, o: nat)
    requires At(s, o) && Performs(e, o)
    ensures var t := Step(joined, s, e);
      && At(t, o)
      && (e.Load? && s.ops[o].phase == Loading ==> t.ops[o].phase != Loading)
      && (e.Commit? && s.ops[o].phase.Committing? ==> t.ops[o].phase == Finished)
      && (s.ops[o].phase == Finished ==> t == s)
  {
  }

  /** Event `k` is the load of call `o`, and gives it this configuration. */
  predicate LoadsAt(joined: bool, keychain: map<string, string>, events: seq<Event>, k: nat, o: nat,
                    config: seq<Providers.Provider>)
    requires k < |events|
  {
    var s := Run(joined, keychain, events[..k]);
    && events[k] == Load(o) && At(s, o) && s.ops[o].phase == Loading && !Refused(s.ops[o].call)
    && Loaded(s.store, s.ops[o].call).1 == Success(config)
  }

  /** On every run a call is about to commit a change of exactly what it loaded before. */
  lemma {:induction false} CommitsWhatItLoaded(joined: bool, keychain: map<string, string>, events: seq<Event>, o: nat,
                                               config: seq<Providers.Provider>)
    requires At(Run(joined, keychain, events), o) && Run(joined, keychain, events).ops[o].phase == Committing(config)
    ensures exists k :: 0 <= k < |events| && LoadsAt(joined, keychain, events, k, o, config)
  {
    var n := |events| - 1;
    var earlier := events[..n];
    var s := Run(joined, keychain, earlier);
    if At(s, o) && s.ops[o].phase == Committing(config) {
      CommitsWhatItLoaded(joined, keychain, earlier, o, config);
      var k :| 0 <= k < n && LoadsAt(joined, keychain, earlier, k, o, config);
      assert earlier[..k] == events[..k];
      assert LoadsAt(joined, keychain, events, k, o, config);
    } else {
      assert LoadsAt(joined, keychain, events, n, o, config);
    }
  }
}
