/** The quit handshake with every atomic load and store a step of its own, and any
    number of calls in progress at once. */
module QuitInterleaved {
  import opened Machine

  /** Where a call is: each constructor names the next access it will make. */
  datatype Thread =
    | RequestAdd
    | RequestClearAck(id: u64)
    | RequestPublish(id: u64)
    | Requested(id: u64)
    | AckLoad(id: u64)
    | AckStore(id: u64)
    | Acked(id: u64, ok: bool)
    | CompleteLoadPending(id: u64)
    | CompleteLoadAck(id: u64)
    | CompleteClearPending(id: u64)
    | CompleteClearAck(id: u64)
    | Completed(id: u64, ok: bool)
    | CancelLoad(id: u64)
    | CancelClearPending(id: u64)
    | CancelClearAck(id: u64)
    | Cancelled(id: u64, ok: bool)
    | ForceLoadPending(id: u64)
    | ForceLoadAck(id: u64)
    | Forced(id: u64, ok: bool)

  predicate Starts(t: Thread) {
    t.RequestAdd? || t.AckLoad? || t.CompleteLoadPending? || t.CancelLoad? || t.ForceLoadPending?
  }

  /** `published` and `seen` remember which ids were stored as pending and which an
      acknowledging call loaded as pending; `issued` counts the ids given out. */
  datatype State = State(
    next: u64,
    pending: u64,
    acknowledged: u64,
    threads: seq<Thread>,
    published: set<u64>,
    seen: set<u64>,
    issued: nat)

  datatype Event = Call(start: Thread) | Advance(thread: nat)

  function Init(): State {
    State(0, 0, 0, [], {}, {}, 0)
  }

  function Goto(s: State, t: nat, at: Thread): State
    requires t < |s.threads|
  {
    s.(threads := s.threads[t := at])
  }

  predicate At(s: State, e: Event) {
    e.Advance? && e.thread < |s.threads|
  }

  /** Which accesses are made one step: a completion's loads with its first store (`take`), the
      two stores of a request (`publish`), the load and store of an acknowledgement
      (`acknowledge`), the two stores of a completion or cancellation (`withdraw`), and the two
      loads of asking whether to force the exit (`force`). */
  datatype Atomic = Atomic(take: bool, publish: bool, acknowledge: bool, withdraw: bool, force: bool)

  /** In the program every access is a step of its own. */
  const PROGRAM: Atomic := Atomic(false, false, false, false, false)

  function Step(a: Atomic, s: State, e: Event): State {
    match e
    case Call(start) => if Starts(start) then s.(threads := s.threads + [start]) else s
    case Advance(t) => if t < |s.threads| then Access(a, s, t) else s
  }

  function Publish(s: State, t: nat, id: u64): State
    requires t < |s.threads|
  {
    Goto(s.(pending := id, published := s.published + {id}), t, Requested(id))
  }

  function Withdraw(a: Atomic, s: State, t: nat, half: Thread, done: Thread): State
    requires t < |s.threads|
  {
    if a.withdraw then Goto(s.(pending := 0, acknowledged := 0), t, done) else Goto(s.(pending := 0), t, half)
  }

  function Access(a: Atomic, s: State, t: nat): State
    requires t < |s.threads|
  {
    match s.threads[t]
    case RequestAdd =>
      var id := Min(s.next + 1, U64_MAX);
      Goto(s.(next := (s.next + 1) % (U64_MAX + 1), issued := s.issued + 1), t, RequestClearAck(id))
    case RequestClearAck(id) =>
      if a.publish then Publish(s.(acknowledged := 0), t, id)
      else Goto(s.(acknowledged := 0), t, RequestPublish(id))
    case RequestPublish(id) => Publish(s, t, id)
    case AckLoad(id) =>
      if id == 0 || s.pending != id then Goto(s, t, Acked(id, false))
      else if a.acknowledge then Goto(s.(seen := s.seen + {id}, acknowledged := id), t, Acked(id, true))
      else Goto(s.(seen := s.seen + {id}), t, AckStore(id))
    case AckStore(id) => Goto(s.(acknowledged := id), t, Acked(id, true))
    case CompleteLoadPending(id) =>
      if s.pending != id then Goto(s, t, Completed(id, false))
      else if !a.take then Goto(s, t, CompleteLoadAck(id))
      else if s.acknowledged != id then Goto(s, t, Completed(id, false))
      else Withdraw(a, s, t, CompleteClearAck(id), Completed(id, true))
    case CompleteLoadAck(id) =>
      Goto(s, t, if s.acknowledged != id then Completed(id, false) else CompleteClearPending(id))
    case CompleteClearPending(id) => Withdraw(a, s, t, CompleteClearAck(id), Completed(id, true))
    case CompleteClearAck(id) => Goto(s.(acknowledged := 0), t, Completed(id, true))
    case CancelLoad(id) => Goto(s, t, if s.pending != id then Cancelled(id, false) else CancelClearPending(id))
    case CancelClearPending(id) => Withdraw(a, s, t, CancelClearAck(id), Cancelled(id, true))
    case CancelClearAck(id) => Goto(s.(acknowledged := 0), t, Cancelled(id, true))
    case ForceLoadPending(id) =>
      if s.pending != id then Goto(s, t, Forced(id, false))
      else if a.force then Goto(s, t, Forced(id, s.acknowledged != id))
      else Goto(s, t, ForceLoadAck(id))
    case ForceLoadAck(id) => Goto(s, t, Forced(id, s.acknowledged != id))
    case _ => s
  }

  function Run(a: Atomic, events: seq<Event>): State {
    if events == [] then Init() else Step(a, Run(a, events[..|events| - 1]), events[|events| - 1])
  }

  lemma RunOneMore(a: Atomic, events: seq<Event>, n: nat)
    requires n < |events|
    ensures Run(a, events[..n + 1]) == Step(a, Run(a, events[..n]), events[n])
  {
    assert events[..n + 1][..n] == events[..n];
  }

  // ----- a completion was acknowledged

  /** The thread is past the load that proved its id acknowledged. */
  predicate Vouched(t: Thread) {
    || t.AckStore? || (t.Acked? && t.ok)
    || t.CompleteClearPending? || t.CompleteClearAck? || (t.Completed? && t.ok)
  }

  predicate CountersOk(s: State) {
    && (s.pending != 0 ==> s.pending in s.published)
    && s.seen <= s.published
    && (s.acknowledged != 0 ==> s.acknowledged in s.seen)
  }

  predicate ThreadOk(s: State, t: nat)
    requires t < |s.threads|
  {
    && (Vouched(s.threads[t]) && s.threads[t].id != 0 ==> s.threads[t].id in s.seen)
    && (s.threads[t].AckStore? || (s.threads[t].Acked? && s.threads[t].ok) ==> s.threads[t].id != 0)
  }

  predicate Inv(s: State) {
    CountersOk(s) && forall t :: 0 <= t < |s.threads| ==> ThreadOk(s, t)
  }

  /** A step moves no thread but the one it advances, and new calls start at their first access. */
  lemma ThreadElsewhere(a: Atomic, s: State, e: Event, t: nat)
    requires t < |Step(a, s, e).threads| && e != Advance(t)
    ensures if t < |s.threads| then Step(a, s, e).threads[t] == s.threads[t] else Starts(Step(a, s, e).threads[t])
  {
  }

  lemma SetsGrow(a: Atomic, s: State, e: Event)
    ensures s.seen <= Step(a, s, e).seen && s.published <= Step(a, s, e).published
  {
  }

  lemma ThreadsGrow(a: Atomic, s: State, e: Event)
    ensures |s.threads| <= |Step(a, s, e).threads|
  {
  }

  lemma StepKeepsPending(a: Atomic, s: State, e: Event)
    requires CountersOk(s)
    ensures Step(a, s, e).pending != 0 ==> Step(a, s, e).pending in Step(a, s, e).published
  {
  }

  lemma StepKeepsSeen(a: Atomic, s: State, e: Event)
    requires CountersOk(s)
    ensures Step(a, s, e).seen <= Step(a, s, e).published
  {
  }

  lemma StepKeepsAcknowledged(a: Atomic, s: State, e: Event)
    requires CountersOk(s) && (At(s, e) ==> ThreadOk(s, e.thread))
    ensures Step(a, s, e).acknowledged != 0 ==> Step(a, s, e).acknowledged in Step(a, s, e).seen
  {
  }

  lemma StepKeepsCounters(a: Atomic, s: State, e: Event)
    requires Inv(s)
    ensures CountersOk(Step(a, s, e))
    ensures s.seen <= Step(a, s, e).seen && s.published <= Step(a, s, e).published
  {
    SetsGrow(a, s, e);
    StepKeepsPending(a, s, e);
    StepKeepsSeen(a, s, e);
    StepKeepsAcknowledged(a, s, e);
  }

  /** A thread becomes vouched for its own id by loading it as pending or as acknowledged. */
  lemma VouchedFrom(a: Atomic, s: State, t: nat)
    requires t < |s.threads| && Vouched(Access(a, s, t).threads[t])
    ensures var at := s.threads[t];
      && Access(a, s, t).threads[t].id == at.id
      && (Vouched(at) || at.id == s.acknowledged || at.id in Access(a, s, t).seen)
  {
  }

  lemma AccessKeepsThread(a: Atomic, s: State, t: nat)
    requires CountersOk(s) && t < |s.threads| && ThreadOk(s, t)
    ensures ThreadOk(Access(a, s, t), t)
  {
    var at := Access(a, s, t).threads[t];
    if Vouched(at) && at.id != 0 {
      VouchedFrom(a, s, t);
      SetsGrow(a, s, Advance(t));
    }
    if at.AckStore? || (at.Acked? && at.ok) {
      AcksNonZero(a, s, t);
    }
  }

  lemma AcksNonZero(a: Atomic, s: State, t: nat)
    requires t < |s.threads| && ThreadOk(s, t)
    ensures var at := Access(a, s, t).threads[t]; at.AckStore? || (at.Acked? && at.ok) ==> at.id != 0
  {
  }

  lemma StepKeepsInv(a: Atomic, s: State, e: Event)
    requires Inv(s)
    ensures Inv(Step(a, s, e))
  {
    StepKeepsCounters(a, s, e);
    forall t | 0 <= t < |Step(a, s, e).threads|
      ensures ThreadOk(Step(a, s, e), t)
    {
      if e == Advance(t) && t < |s.threads| {
        assert ThreadOk(s, t);
        AccessKeepsThread(a, s, t);
      } else {
        ThreadElsewhere(a, s, e, t);
        if t < |s.threads| {
          assert ThreadOk(s, t);
        }
      }
    }
  }

  lemma {:induction false} RunKeepsInv(a: Atomic, events: seq<Event>)
    ensures Inv(Run(a, events))
  {
    if events != [] {
      RunKeepsInv(a, events[..|events| - 1]);
      StepKeepsInv(a, Run(a, events[..|events| - 1]), events[|events| - 1]);
    }
  }

  /** In every interleaving a completion that returns true for a non-zero id implies
      that some acknowledge call loaded that id as pending, after it was published. */
  lemma CompletionWasAcknowledged(a: Atomic, events: seq<Event>, t: nat, id: u64)
    requires t < |Run(a, events).threads| && Run(a, events).threads[t] == Completed(id, true) && id != 0
    ensures id in Run(a, events).seen && id in Run(a, events).published
  {
    RunKeepsInv(a, events);
    assert ThreadOk(Run(a, events), t);
  }

  // ----- an id is published once, while ids last

  /** The id a request has been given and not yet published, or zero. */
  function FreshId(t: Thread): u64 {
    if t.RequestClearAck? || t.RequestPublish? then t.id else 0
  }

  predicate IdsOk(s: State) {
    && s.next == s.issued
    && (forall id :: id in s.published ==> 0 < id <= s.next)
    && (forall t :: 0 <= t < |s.threads| ==> FreshId(s.threads[t]) <= s.next && FreshId(s.threads[t]) !in s.published)
    && (forall t, u :: 0 <= t < u < |s.threads| && FreshId(s.threads[t]) == FreshId(s.threads[u]) ==>
         FreshId(s.threads[t]) == 0)
    && (forall t :: 0 <= t < |s.threads| && s.threads[t].RequestPublish? ==> s.threads[t].id != 0)
    && (forall t :: 0 <= t < |s.threads| && s.threads[t].RequestClearAck? ==> s.threads[t].id != 0)
  }

  lemma StepIssues(a: Atomic, s: State, e: Event)
    ensures s.issued <= Step(a, s, e).issued
  {
  }

  /** Only adding to the counter and publishing touch ids. */
  predicate TouchesIds(a: Atomic, s: State, e: Event) {
    At(s, e) && (s.threads[e.thread].RequestAdd? || Publishes(a, s.threads[e.thread]))
  }

  predicate Publishes(a: Atomic, t: Thread) {
    t.RequestPublish? || (a.publish && t.RequestClearAck?)
  }

  lemma QuietCounters(a: Atomic, s: State, e: Event)
    requires !TouchesIds(a, s, e)
    ensures var s' := Step(a, s, e);
      s'.next == s.next && s'.published == s.published && s'.issued == s.issued && |s.threads| <= |s'.threads|
  {
  }

  lemma QuietAccess(a: Atomic, s: State, t: nat)
    requires t < |s.threads| && !TouchesIds(a, s, Advance(t))
    ensures FreshId(Access(a, s, t).threads[t]) == FreshId(s.threads[t])
    ensures var at := Access(a, s, t).threads[t];
      at.RequestPublish? || at.RequestClearAck? ==> s.threads[t].RequestPublish? || s.threads[t].RequestClearAck?
  {
  }

  lemma QuietKeepsIds(a: Atomic, s: State, e: Event)
    requires IdsOk(s) && !TouchesIds(a, s, e)
    ensures IdsOk(Step(a, s, e))
  {
    var s' := Step(a, s, e);
    QuietCounters(a, s, e);
    forall t | 0 <= t < |s'.threads|
      ensures FreshId(s'.threads[t]) == (if t < |s.threads| then FreshId(s.threads[t]) else 0)
      ensures s'.threads[t].RequestPublish? || s'.threads[t].RequestClearAck? ==> s'.threads[t].id != 0
    {
      if e == Advance(t) && t < |s.threads| {
        QuietAccess(a, s, t);
      } else {
        ThreadElsewhere(a, s, e, t);
      }
    }
  }

  lemma AddKeepsIds(a: Atomic, s: State, t: nat)
    requires IdsOk(s) && t < |s.threads| && s.threads[t].RequestAdd? && s.issued < U64_MAX
    ensures IdsOk(Access(a, s, t))
  {
    var s' := Access(a, s, t);
    assert FreshId(s'.threads[t]) == s.next + 1;
    assert forall u :: 0 <= u < |s.threads| && u != t ==> s'.threads[u] == s.threads[u];
  }

  lemma PublishKeepsIds(a: Atomic, s: State, t: nat)
    requires IdsOk(s) && t < |s.threads| && Publishes(a, s.threads[t])
    ensures IdsOk(Access(a, s, t))
  {
    var s' := Access(a, s, t);
    assert FreshId(s'.threads[t]) == 0;
    assert forall u :: 0 <= u < |s.threads| && u != t ==> s'.threads[u] == s.threads[u];
  }

  lemma StepKeepsIds(a: Atomic, s: State, e: Event)
    requires IdsOk(s) && Step(a, s, e).issued <= U64_MAX
    ensures IdsOk(Step(a, s, e))
  {
    if !TouchesIds(a, s, e) {
      QuietKeepsIds(a, s, e);
    } else if s.threads[e.thread].RequestAdd? {
      AddKeepsIds(a, s, e.thread);
    } else {
      PublishKeepsIds(a, s, e.thread);
    }
  }

  lemma {:induction false} RunKeepsIds(a: Atomic, events: seq<Event>, n: nat)
    requires n <= |events| && Run(a, events).issued <= U64_MAX
    ensures Run(a, events[..n]).issued <= U64_MAX && IdsOk(Run(a, events[..n]))
  {
    IssuedGrows(a, events, n);
    if n > 0 {
      RunKeepsIds(a, events, n - 1);
      RunOneMore(a, events, n - 1);
      StepKeepsIds(a, Run(a, events[..n - 1]), events[n - 1]);
    }
  }

  lemma {:induction false} IssuedGrows(a: Atomic, events: seq<Event>, n: nat)
    requires n <= |events|
    ensures Run(a, events[..n]).issued <= Run(a, events).issued
  {
    if n < |events| {
      var shorter := events[..|events| - 1];
      assert shorter[..n] == events[..n];
      IssuedGrows(a, shorter, n);
      StepIssues(a, Run(a, shorter), events[|events| - 1]);
    } else {
      assert events[..n] == events;
    }
  }

  /** The step does not make a published id pending again. */
  lemma NotRepublished(a: Atomic, s: State, e: Event, id: u64)
    requires IdsOk(s) && id in s.published
    ensures Step(a, s, e).pending == id ==> s.pending == id
  {
  }

  // ----- at most one completion

  /** The thread has taken the request: its completion returns true. */
  predicate Took(t: Thread, id: u64) {
    t == CompleteClearAck(id) || t == Completed(id, true)
  }

  predicate TakenOnce(s: State, id: u64) {
    && (forall t :: 0 <= t < |s.threads| && Took(s.threads[t], id) ==> s.pending != id)
    && (forall t, u :: 0 <= t < u < |s.threads| ==> !(Took(s.threads[t], id) && Took(s.threads[u], id)))
  }

  /** A completion about to clear the pending request still finds its own id there. */
  predicate CleanClear(s: State, e: Event, id: u64) {
    At(s, e) && s.threads[e.thread] == CompleteClearPending(id) ==> s.pending == id
  }

  lemma TookIsPublished(s: State, t: nat, id: u64)
    requires Inv(s) && t < |s.threads| && Took(s.threads[t], id) && id != 0
    ensures id in s.published
  {
    assert ThreadOk(s, t);
  }

  /** The step takes the request: it clears the pending id on its completion's behalf. */
  predicate Takes(a: Atomic, s: State, e: Event, id: u64) {
    At(s, e)
    && (s.threads[e.thread] == CompleteClearPending(id)
        || (a.take && s.threads[e.thread] == CompleteLoadPending(id) && s.pending == id == s.acknowledged))
  }

  lemma TookElsewhere(a: Atomic, s: State, e: Event, id: u64, t: nat)
    requires t < |Step(a, s, e).threads| && (e.Call? || e.thread != t)
    ensures Took(Step(a, s, e).threads[t], id) <==> t < |s.threads| && Took(s.threads[t], id)
  {
    ThreadElsewhere(a, s, e, t);
  }

  lemma TookHere(a: Atomic, s: State, t: nat, id: u64)
    requires t < |s.threads|
    ensures Took(Access(a, s, t).threads[t], id) <==> Took(s.threads[t], id) || Takes(a, s, Advance(t), id)
  {
  }

  lemma TakingClears(a: Atomic, s: State, e: Event, id: u64)
    requires Takes(a, s, e, id) && id != 0
    ensures Step(a, s, e).pending != id
  {
  }

  lemma StepTakesOnce(a: Atomic, s: State, e: Event, id: u64)
    requires Inv(s) && IdsOk(s) && TakenOnce(s, id) && id != 0 && CleanClear(s, e, id)
    ensures TakenOnce(Step(a, s, e), id)
  {
    var s' := Step(a, s, e);
    forall t | 0 <= t < |s'.threads|
      ensures Took(s'.threads[t], id) ==> s'.pending != id
      ensures Took(s'.threads[t], id) <==>
        (t < |s.threads| && Took(s.threads[t], id)) || (Takes(a, s, e, id) && e.thread == t)
    {
      if e == Advance(t) {
        TookHere(a, s, t, id);
      } else {
        TookElsewhere(a, s, e, id, t);
      }
      if Takes(a, s, e, id) {
        TakingClears(a, s, e, id);
      }
      if t < |s.threads| && Took(s.threads[t], id) {
        TookIsPublished(s, t, id);
        NotRepublished(a, s, e, id);
      }
    }
  }

  predicate CleanUpTo(a: Atomic, events: seq<Event>, id: u64, n: nat)
    requires n <= |events|
  {
    forall i :: 0 <= i < n ==> CleanClear(Run(a, events[..i]), events[i], id)
  }

  lemma {:induction false} CleanTakesOnce(a: Atomic, events: seq<Event>, id: u64, n: nat)
    requires n <= |events| && id != 0 && Run(a, events).issued <= U64_MAX
    requires CleanUpTo(a, events, id, n)
    ensures TakenOnce(Run(a, events[..n]), id)
  {
    if n > 0 {
      CleanTakesOnce(a, events, id, n - 1);
      RunKeepsInv(a, events[..n - 1]);
      RunKeepsIds(a, events, n - 1);
      RunOneMore(a, events, n - 1);
      StepTakesOnce(a, Run(a, events[..n - 1]), events[n - 1], id);
    }
  }

  predicate CompletesOnce(s: State, id: u64) {
    forall t, u :: 0 <= t < u < |s.threads| ==> !(s.threads[t] == s.threads[u] == Completed(id, true))
  }

  /** When every completion that clears the pending request finds its own id there, at most
      one completion of that id returns true. */
  lemma CleanCompletesOnce(a: Atomic, events: seq<Event>, id: u64)
    requires id != 0 && Run(a, events).issued <= U64_MAX
    requires CleanUpTo(a, events, id, |events|)
    ensures CompletesOnce(Run(a, events), id)
  {
    CleanTakesOnce(a, events, id, |events|);
    assert events[..|events|] == events;
  }

  lemma {:induction false} NeverClearing(a: Atomic, events: seq<Event>)
    requires a.take
    ensures forall t :: 0 <= t < |Run(a, events).threads| ==>
      !Run(a, events).threads[t].CompleteLoadAck? && !Run(a, events).threads[t].CompleteClearPending?
  {
    if events != [] {
      NeverClearing(a, events[..|events| - 1]);
    }
  }

  lemma TakenCompletesOnce(a: Atomic, events: seq<Event>, id: u64)
    requires a.take && id != 0 && Run(a, events).issued <= U64_MAX
    ensures CompletesOnce(Run(a, events), id)
  {
    forall i | 0 <= i < |events|
      ensures CleanClear(Run(a, events[..i]), events[i], id)
    {
      NeverClearing(a, events[..i]);
    }
    CleanCompletesOnce(a, events, id);
  }

  /** Whatever else is one step: all runs of at most 2^64 - 1 requests complete every non-zero
      id at most once exactly when a completion takes the request in one step. */
  lemma AtMostOnceExactlyWhenTaken(a: Atomic)
    ensures (forall events, id: u64 :: id != 0 && Run(a, events).issued <= U64_MAX ==>
              CompletesOnce(Run(a, events), id)) <==> a.take
  {
    if a.take {
      forall events, id: u64 | id != 0 && Run(a, events).issued <= U64_MAX
        ensures CompletesOnce(Run(a, events), id)
      {
        TakenCompletesOnce(a, events, id);
      }
    } else {
      CompletesTwice(a);
      var events :| Run(a, events) == During(0, 0, Completed(1, true), Completed(1, true));
      var threads := Run(a, events).threads;
      assert threads[2] == threads[3] == Completed(1, true);
      assert !CompletesOnce(Run(a, events), 1);
    }
  }

  // ----- reaching states

  ghost predicate Reachable(a: Atomic, s: State) {
    exists events :: Run(a, events) == s
  }

  lemma ReachStep(a: Atomic, s: State, e: Event, t: State)
    requires Reachable(a, s) && Step(a, s, e) == t
    ensures Reachable(a, t)
  {
    var events :| Run(a, events) == s;
    var longer := events + [e];
    assert longer[..|longer| - 1] == events;
    assert Run(a, longer) == t;
  }

  lemma InitReached(a: Atomic)
    ensures Reachable(a, Init())
  {
    assert Run(a, []) == Init();
  }

  /** A whole request made by a call of its own. */
  function AfterRequest(s: State): State
    requires s.next < U64_MAX
  {
    var id := s.next + 1;
    State(id, id, 0, s.threads + [Requested(id)], s.published + {id}, s.seen, s.issued + 1)
  }

  lemma ReachRequest(a: Atomic, s: State)
    requires Reachable(a, s) && s.next < U64_MAX
    ensures Reachable(a, AfterRequest(s))
  {
    var t, id := |s.threads|, s.next + 1;
    var s1 := s.(threads := s.threads + [RequestAdd]);
    ReachStep(a, s, Call(RequestAdd), s1);
    var s2 := s.(next := id, issued := s.issued + 1, threads := s.threads + [RequestClearAck(id)]);
    ReachStep(a, s1, Advance(t), s2);
    if !a.publish {
      var s3 := s2.(acknowledged := 0, threads := s.threads + [RequestPublish(id)]);
      ReachStep(a, s2, Advance(t), s3);
      ReachStep(a, s3, Advance(t), AfterRequest(s));
    } else {
      ReachStep(a, s2, Advance(t), AfterRequest(s));
    }
  }

  /** A whole acknowledgement of the pending request. */
  function AfterAck(s: State): State {
    s.(acknowledged := s.pending, threads := s.threads + [Acked(s.pending, true)], seen := s.seen + {s.pending})
  }

  lemma ReachAck(a: Atomic, s: State)
    requires Reachable(a, s) && s.pending != 0
    ensures Reachable(a, AfterAck(s))
  {
    var t := |s.threads|;
    var s1 := s.(threads := s.threads + [AckLoad(s.pending)]);
    ReachStep(a, s, Call(AckLoad(s.pending)), s1);
    if !a.acknowledge {
      var s2 := s.(seen := s.seen + {s.pending}, threads := s.threads + [AckStore(s.pending)]);
      ReachStep(a, s1, Advance(t), s2);
      ReachStep(a, s2, Advance(t), AfterAck(s));
    } else {
      ReachStep(a, s1, Advance(t), AfterAck(s));
    }
  }

  const ACKNOWLEDGED: State := State(1, 1, 1, [Requested(1), Acked(1, true)], {1}, {1}, 1)

  lemma HandshakeReached(a: Atomic)
    ensures Reachable(a, ACKNOWLEDGED)
  {
    InitReached(a);
    ReachRequest(a, Init());
    ReachAck(a, AfterRequest(Init()));
    assert AfterAck(AfterRequest(Init())) == ACKNOWLEDGED;
  }

  /** Request 1 has been acknowledged and two completions of it are under way. */
  function During(pending: u64, acknowledged: u64, first: Thread, second: Thread): State {
    State(1, pending, acknowledged, [Requested(1), Acked(1, true), first, second], {1}, {1}, 1)
  }

  lemma BothLoaded(a: Atomic)
    requires !a.take
    ensures Reachable(a, During(1, 1, CompleteClearPending(1), CompleteClearPending(1)))
  {
    HandshakeReached(a);
    var t := ACKNOWLEDGED.(threads := [Requested(1), Acked(1, true), CompleteLoadPending(1)]);
    ReachStep(a, ACKNOWLEDGED, Call(CompleteLoadPending(1)), t);
    var s0 := During(1, 1, CompleteLoadPending(1), CompleteLoadPending(1));
    ReachStep(a, t, Call(CompleteLoadPending(1)), s0);
    var s1 := During(1, 1, CompleteLoadAck(1), CompleteLoadPending(1));
    ReachStep(a, s0, Advance(2), s1);
    var s2 := During(1, 1, CompleteClearPending(1), CompleteLoadPending(1));
    ReachStep(a, s1, Advance(2), s2);
    var s3 := During(1, 1, CompleteClearPending(1), CompleteLoadAck(1));
    ReachStep(a, s2, Advance(3), s3);
    ReachStep(a, s3, Advance(3), During(1, 1, CompleteClearPending(1), CompleteClearPending(1)));
  }

  /** Two completions of an acknowledged request that both load before either stores both
      return true. */
  lemma CompletesTwice(a: Atomic)
    requires !a.take
    ensures Reachable(a, During(0, 0, Completed(1, true), Completed(1, true)))
  {
    BothLoaded(a);
    var clear, done := CompleteClearPending(1), Completed(1, true);
    if a.withdraw {
      ReachStep(a, During(1, 1, clear, clear), Advance(2), During(0, 0, done, clear));
      ReachStep(a, During(0, 0, done, clear), Advance(3), During(0, 0, done, done));
    } else {
      var half := CompleteClearAck(1);
      ReachStep(a, During(1, 1, clear, clear), Advance(2), During(0, 1, half, clear));
      ReachStep(a, During(0, 1, half, clear), Advance(2), During(0, 0, done, clear));
      ReachStep(a, During(0, 0, done, clear), Advance(3), During(0, 0, done, half));
      ReachStep(a, During(0, 0, done, half), Advance(3), During(0, 0, done, done));
    }
  }
}
