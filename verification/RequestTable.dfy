/** The language-server session's request table, as the steps its four parties take
    between acquiring and releasing a lock: callers, the stdout reader, timeouts, and
    the failure drain. Any interleaving of the steps is a run. */
module RequestTable {
  import opened Wrappers
  import opened Machine

  const ID_SPACE: nat := U64_MAX + 1

  /** What can arrive on a caller's channel. Responses carry a ghost-like serial number
      so that one message can be told from another with equal content. */
  datatype Delivery = Response(serial: nat, id: u64) | Drained

  datatype Return = Value(delivery: Delivery) | WriteError | TimedOut | Disconnected

  datatype Phase =
    | Issued        // id taken, sender still in the caller's hands
    | Registered    // sender in the table, request not yet written
    | WriteFailed   // about to remove its own entry
    | Waiting       // blocked on the channel
    | Expired       // timed out, about to remove its own entry
    | Returned(result: Return)

  datatype Call = Call(id: u64, phase: Phase, channel: seq<Delivery>)

  datatype Held = Held(call: nat, delivery: Delivery)

  /** `pending` maps a request id to the call whose sender is stored under it. */
  datatype State = State(
    next: u64,
    pending: map<u64, nat>,
    hand: Option<Held>,
    calls: seq<Call>,
    responses: nat)

  datatype Event =
    | Issue
    | Insert(call: nat)
    | Write(call: nat, ok: bool)
    | RemoveUnsent(call: nat)
    | Receive(call: nat)
    | Timeout(call: nat)
    | Disconnect(call: nat)
    | RemoveExpired(call: nat)
    | TakeResponse(id: u64)
    | SendHeld
    | Drain

  function Init(): State {
    State(1, map[], None, [], 0)
  }

  function SetCall(s: State, c: nat, call: Call): State
    requires c < |s.calls|
  {
    s.(calls := s.calls[c := call])
  }

  function SetPhase(s: State, c: nat, phase: Phase): State
    requires c < |s.calls|
  {
    SetCall(s, c, s.calls[c].(phase := phase))
  }

  predicate In(s: State, c: nat, phase: Phase) {
    c < |s.calls| && s.calls[c].phase == phase
  }

  /** Some sender of the call still exists: the channel is not disconnected. */
  predicate SenderAlive(s: State, c: nat)
    requires c < |s.calls|
  {
    || s.calls[c].phase == Issued
    || (s.calls[c].id in s.pending && s.pending[s.calls[c].id] == c)
    || (s.hand.Some? && s.hand.value.call == c)
  }

  /** Sending to a caller that has returned is ignored: its receiver is gone. */
  function Send(call: Call, d: Delivery): Call {
    if call.phase.Returned? then call else call.(channel := call.channel + [d])
  }

  predicate Registers(pending: map<u64, nat>, c: nat, call: Call) {
    call.id in pending && pending[call.id] == c
  }

  function DrainCalls(pending: map<u64, nat>, calls: seq<Call>): seq<Call> {
    seq(|calls|, c requires 0 <= c < |calls| =>
      if Registers(pending, c, calls[c]) then Send(calls[c], Drained) else calls[c])
  }

  /** A step that is not enabled changes nothing. */
  function Step(s: State, e: Event): State {
    match e
    case Issue =>
      s.(next := (s.next + 1) % ID_SPACE, calls := s.calls + [Call(s.next, Issued, [])])
    case Insert(c) =>
      if In(s, c, Issued) then SetPhase(s.(pending := s.pending[s.calls[c].id := c]), c, Registered) else s
    case Write(c, ok) =>
      if In(s, c, Registered) then SetPhase(s, c, if ok then Waiting else WriteFailed) else s
    case RemoveUnsent(c) =>
      if In(s, c, WriteFailed)
      then SetPhase(s.(pending := s.pending - {s.calls[c].id}), c, Returned(WriteError)) else s
    case Receive(c) =>
      if In(s, c, Waiting) && s.calls[c].channel != []
      then SetPhase(s, c, Returned(Value(s.calls[c].channel[0]))) else s
    case Timeout(c) =>
      if In(s, c, Waiting) && s.calls[c].channel == [] then SetPhase(s, c, Expired) else s
    case Disconnect(c) =>
      if In(s, c, Waiting) && s.calls[c].channel == [] && !SenderAlive(s, c)
      then SetPhase(s, c, Returned(Disconnected)) else s
    case RemoveExpired(c) =>
      if In(s, c, Expired)
      then SetPhase(s.(pending := s.pending - {s.calls[c].id}), c, Returned(TimedOut)) else s
    case TakeResponse(id) =>
      if s.hand.Some? then s
      else if id in s.pending then
        s.(pending := s.pending - {id}, responses := s.responses + 1,
           hand := Some(Held(s.pending[id], Response(s.responses, id))))
      else s.(responses := s.responses + 1)
    case SendHeld =>
      if s.hand.Some? && s.hand.value.call < |s.calls|
      then SetCall(s.(hand := None), s.hand.value.call, Send(s.calls[s.hand.value.call], s.hand.value.delivery))
      else s
    case Drain =>
      s.(pending := map[], calls := DrainCalls(s.pending, s.calls))
  }

  function Run(s: State, events: seq<Event>): State {
    if events == [] then s else Step(Run(s, events[..|events| - 1]), events[|events| - 1])
  }

  // ----- the invariant

  predicate OwnDelivery(s: State, c: nat, d: Delivery)
    requires c < |s.calls|
  {
    d.Response? ==> d.id == s.calls[c].id && d.serial < s.responses
  }

  /** The response, if any, that the call holds on its channel or has returned. */
  function Obtained(call: Call): Option<Delivery> {
    if call.phase.Returned? && call.phase.result.Value? then Some(call.phase.result.delivery)
    else if call.channel != [] then Some(call.channel[0])
    else None
  }

  predicate CallOk(s: State, c: nat)
    requires c < |s.calls|
  {
    var call := s.calls[c];
    && call.id == (c + 1) % ID_SPACE
    && |call.channel| <= 1
    && (call.id in s.pending ==>
         s.pending[call.id] == c && call.channel == [] && !call.phase.Issued? && !call.phase.Returned?)
    && (s.hand.Some? && s.hand.value.call == c ==>
         call.id !in s.pending && call.channel == [] && !call.phase.Issued?)
    && (call.phase.Issued? ==> call.channel == [])
    && (!call.phase.Returned? ==> call.channel != [] || SenderAlive(s, c))
    && (Obtained(call).Some? ==> OwnDelivery(s, c, Obtained(call).value))
    && call.phase != Returned(Disconnected)
    && (call.phase.Returned? && call.phase.result.Value? ==>
         call.channel == [call.phase.result.delivery])
  }

  /** The serial number of the server message the call has obtained, if it has. */
  function Serial(call: Call): Option<nat> {
    if Obtained(call).Some? && Obtained(call).value.Response? then Some(Obtained(call).value.serial) else None
  }

  predicate SerialsDistinct(s: State) {
    && (forall c, d :: 0 <= c < d < |s.calls| && Serial(s.calls[c]).Some? ==> Serial(s.calls[c]) != Serial(s.calls[d]))
    && (s.hand.Some? && s.hand.value.delivery.Response? ==>
         forall c :: 0 <= c < |s.calls| ==> Serial(s.calls[c]) != Some(s.hand.value.delivery.serial))
  }

  predicate HandOk(s: State) {
    s.hand.Some? ==>
      && s.hand.value.call < |s.calls|
      && s.hand.value.delivery.Response?
      && OwnDelivery(s, s.hand.value.call, s.hand.value.delivery)
  }

  predicate Inv(s: State) {
    && s.next == (|s.calls| + 1) % ID_SPACE
    && (forall id :: id in s.pending ==> s.pending[id] < |s.calls| && s.calls[s.pending[id]].id == id)
    && HandOk(s)
    && (forall c :: 0 <= c < |s.calls| ==> CallOk(s, c))
    && SerialsDistinct(s)
  }

  lemma IdsDistinct(s: State, c: nat, d: nat)
    requires Inv(s) && |s.calls| <= ID_SPACE && c < |s.calls| && d < |s.calls|
    ensures s.calls[c].id == s.calls[d].id <==> c == d
  {
    assert CallOk(s, c) && CallOk(s, d);
  }

  lemma InvHoldsInitially()
    ensures Inv(Init())
  {
  }

  lemma FreshId(s: State)
    requires Inv(s) && |s.calls| < ID_SPACE
    ensures s.next !in s.pending
  {
    forall id | id in s.pending
      ensures id != s.next
    {
      assert CallOk(s, s.pending[id]);
    }
  }

  lemma IssueKeepsCall(s: State, c: nat)
    requires Inv(s) && |s.calls| < ID_SPACE && c < |s.calls| + 1
    ensures CallOk(Step(s, Issue), c)
  {
    FreshId(s);
    if c < |s.calls| {
      assert CallOk(s, c);
    }
  }

  /** A step of call `d` alone leaves every other call as it was. */
  lemma CallerKeepsOthers(s: State, e: Event, d: nat, c: nat)
    requires Inv(s) && |s.calls| <= ID_SPACE && c < |s.calls| && d < |s.calls| && c != d
    requires
      || e == Insert(d) || e == Write(d, true) || e == Write(d, false) || e == RemoveUnsent(d) || e == Receive(d)
      || e == Timeout(d) || e == Disconnect(d) || e == RemoveExpired(d)
    ensures CallOk(Step(s, e), c)
  {
    assert CallOk(s, c) && CallOk(s, d);
    IdsDistinct(s, c, d);
  }

  lemma CallerKeepsItself(s: State, e: Event, c: nat)
    requires Inv(s) && |s.calls| <= ID_SPACE && c < |s.calls|
    requires
      || e == Insert(c) || e == Write(c, true) || e == Write(c, false) || e == RemoveUnsent(c) || e == Receive(c)
      || e == Timeout(c) || e == Disconnect(c) || e == RemoveExpired(c)
    ensures CallOk(Step(s, e), c)
  {
    assert CallOk(s, c);
  }

  lemma TakeKeepsCall(s: State, id: u64, c: nat)
    requires Inv(s) && |s.calls| <= ID_SPACE && c < |s.calls|
    ensures CallOk(Step(s, TakeResponse(id)), c)
  {
    assert CallOk(s, c);
    if id in s.pending {
      assert CallOk(s, s.pending[id]);
      IdsDistinct(s, c, s.pending[id]);
    }
  }

  lemma SendKeepsCall(s: State, c: nat)
    requires Inv(s) && |s.calls| <= ID_SPACE && c < |s.calls|
    ensures CallOk(Step(s, SendHeld), c)
  {
    assert CallOk(s, c);
  }

  lemma DrainKeepsCall(s: State, c: nat)
    requires Inv(s) && |s.calls| <= ID_SPACE && c < |s.calls|
    ensures CallOk(Step(s, Drain), c)
  {
    assert CallOk(s, c);
  }

  lemma StepKeepsCall(s: State, e: Event, c: nat)
    requires Inv(s) && |Step(s, e).calls| <= ID_SPACE && c < |Step(s, e).calls|
    ensures CallOk(Step(s, e), c)
  {
    match e
    case Issue => IssueKeepsCall(s, c);
    case TakeResponse(id) => TakeKeepsCall(s, id, c);
    case SendHeld => SendKeepsCall(s, c);
    case Drain => DrainKeepsCall(s, c);
    case _ =>
      assert CallOk(s, c);
      if e.call == c {
        CallerKeepsItself(s, e, c);
      } else if e.call < |s.calls| {
        CallerKeepsOthers(s, e, e.call, c);
      }
  }

  lemma StepKeepsNext(s: State, e: Event)
    requires Inv(s) && |Step(s, e).calls| <= ID_SPACE
    ensures Step(s, e).next == (|Step(s, e).calls| + 1) % ID_SPACE
  {
    NextWraps(|s.calls| + 1, 0);
  }

  lemma StepKeepsIds(s: State, e: Event, c: nat)
    requires c < |s.calls|
    ensures c < |Step(s, e).calls| && Step(s, e).calls[c].id == s.calls[c].id
  {
  }

  lemma StepKeepsPending(s: State, e: Event, id: u64)
    requires Inv(s) && |Step(s, e).calls| <= ID_SPACE && id in Step(s, e).pending
    ensures var t := Step(s, e); t.pending[id] < |t.calls| && t.calls[t.pending[id]].id == id
  {
    PendingBefore(s, e, id);
    StepKeepsIds(s, e, Step(s, e).pending[id]);
  }

  /** What a step leaves in the table was there, or is the entry it inserts. */
  lemma PendingBefore(s: State, e: Event, id: u64)
    requires id in Step(s, e).pending
    ensures var c := Step(s, e).pending[id];
      || (id in s.pending && s.pending[id] == c)
      || (e == Insert(c) && c < |s.calls| && s.calls[c].id == id)
  {
  }

  lemma StepKeepsHand(s: State, e: Event)
    requires Inv(s) && |Step(s, e).calls| <= ID_SPACE
    ensures HandOk(Step(s, e))
  {
  }

  lemma SerialsBounded(s: State, c: nat)
    requires Inv(s) && c < |s.calls|
    ensures Serial(s.calls[c]).Some? ==> Serial(s.calls[c]).value < s.responses
  {
    assert CallOk(s, c);
  }

  /** Apart from sending what the reader holds, no step changes what a call obtained. */
  lemma SerialKept(s: State, e: Event, c: nat)
    requires Inv(s) && c < |s.calls|
    requires e != SendHeld || s.hand.None? || s.hand.value.call != c
    ensures Serial(Step(s, e).calls[c]) == Serial(s.calls[c])
  {
    assert CallOk(s, c);
  }

  lemma SentSerial(s: State)
    requires Inv(s) && s.hand.Some?
    ensures var c := s.hand.value.call;
      Serial(Step(s, SendHeld).calls[c]) == Serial(s.calls[c])
      || Serial(Step(s, SendHeld).calls[c]) == Some(s.hand.value.delivery.serial)
  {
    assert CallOk(s, s.hand.value.call);
  }

  /** Only taking a response mints a serial; only sending it hands it to a call. */
  lemma StepKeepsSerials(s: State, e: Event)
    requires Inv(s) && |Step(s, e).calls| <= ID_SPACE
    ensures SerialsDistinct(Step(s, e))
  {
    var t := Step(s, e);
    var sent := if e == SendHeld && s.hand.Some? then s.hand.value.call else |s.calls|;
    if sent < |s.calls| {
      SentSerial(s);
    }
    forall c | 0 <= c < |s.calls|
      ensures c != sent ==> Serial(t.calls[c]) == Serial(s.calls[c])
      ensures Serial(s.calls[c]).Some? ==> Serial(s.calls[c]).value < s.responses
    {
      SerialsBounded(s, c);
      if c != sent {
        SerialKept(s, e, c);
      }
    }
  }

  /** Every step of every party keeps the invariant while ids have not wrapped around. */
  lemma StepKeepsInv(s: State, e: Event)
    requires Inv(s) && |Step(s, e).calls| <= ID_SPACE
    ensures Inv(Step(s, e))
  {
    StepKeepsNext(s, e);
    StepKeepsHand(s, e);
    StepKeepsSerials(s, e);
    forall id | id in Step(s, e).pending
      ensures var t := Step(s, e); t.pending[id] < |t.calls| && t.calls[t.pending[id]].id == id
    {
      StepKeepsPending(s, e, id);
    }
    forall c | 0 <= c < |Step(s, e).calls|
      ensures CallOk(Step(s, e), c)
    {
      StepKeepsCall(s, e, c);
    }
  }

  // ----- whole runs

  lemma StepGrows(s: State, e: Event)
    ensures |s.calls| <= |Step(s, e).calls|
  {
  }

  lemma {:induction false} CallsOnlyGrow(events: seq<Event>, n: nat)
    requires n <= |events|
    ensures |Run(Init(), events[..n]).calls| <= |Run(Init(), events).calls|
  {
    if n < |events| {
      var shorter := events[..|events| - 1];
      CallsOnlyGrow(shorter, n);
      assert shorter[..n] == events[..n];
      StepGrows(Run(Init(), shorter), events[|events| - 1]);
    } else {
      assert events[..n] == events;
    }
  }

  lemma {:induction false} RunKeepsInv(events: seq<Event>)
    requires |Run(Init(), events).calls| <= ID_SPACE
    ensures Inv(Run(Init(), events))
  {
    if events == [] {
      InvHoldsInitially();
    } else {
      var shorter := events[..|events| - 1];
      CallsOnlyGrow(events, |events| - 1);
      RunKeepsInv(shorter);
      StepKeepsInv(Run(Init(), shorter), events[|events| - 1]);
    }
  }

  /** How many places hold the sender of call `c` once it has been issued. */
  function SenderPlaces(s: State, c: nat): nat
    requires c < |s.calls|
  {
    (if s.calls[c].phase == Issued then 1 else 0)
    + (if exists id :: id in s.pending && s.pending[id] == c then 1 else 0)
    + (if s.hand.Some? && s.hand.value.call == c then 1 else 0)
  }

  /** In every interleaving, up to 2^64 requests: ids are issued once; until a request
      returns, its sender is in exactly one place or its one message is on the channel;
      at most one message ever reaches a caller; a caller never sees a disconnected
      channel; and an id has left the table when its request returns. */
  lemma RequestTableIsSafe(events: seq<Event>)
    requires |Run(Init(), events).calls| <= ID_SPACE
    ensures var s := Run(Init(), events);
      && (forall c, d :: 0 <= c < d < |s.calls| ==> s.calls[c].id != s.calls[d].id)
      && (forall c :: 0 <= c < |s.calls| ==> SenderPlaces(s, c) <= 1 && |s.calls[c].channel| <= 1)
      && (forall c :: 0 <= c < |s.calls| && !s.calls[c].phase.Returned? ==>
           SenderPlaces(s, c) + |s.calls[c].channel| == 1)
      && (forall c :: 0 <= c < |s.calls| && s.calls[c].phase.Returned? ==>
           s.calls[c].id !in s.pending && s.calls[c].phase.result != Disconnected)
  {
    RunKeepsInv(events);
    var s := Run(Init(), events);
    forall c, d | 0 <= c < d < |s.calls|
      ensures s.calls[c].id != s.calls[d].id
    {
      IdsDistinct(s, c, d);
    }
    forall c | 0 <= c < |s.calls|
      ensures CallOk(s, c) && SenderPlaces(s, c) <= 1
      ensures !s.calls[c].phase.Returned? ==> SenderPlaces(s, c) + |s.calls[c].channel| == 1
    {
      assert CallOk(s, c);
      if id :| id in s.pending && s.pending[id] == c {
        assert s.calls[c].id == id;
      }
    }
  }

  /** A returned response carries the caller's own id, and no server message is
      returned to two callers. */
  lemma ResponsesReachTheirCaller(events: seq<Event>, c: nat, d: nat)
    requires |Run(Init(), events).calls| <= ID_SPACE
    requires c < |Run(Init(), events).calls| && d < |Run(Init(), events).calls|
    ensures var s := Run(Init(), events);
      && (Serial(s.calls[c]).Some? ==> Obtained(s.calls[c]).value.id == s.calls[c].id)
      && (Serial(s.calls[c]).Some? && c != d ==> Serial(s.calls[c]) != Serial(s.calls[d]))
  {
    RunKeepsInv(events);
    assert CallOk(Run(Init(), events), c);
  }

  /** Once a request has returned, a response with its id finds nothing to deliver to. */
  lemma LateResponseIsDropped(events: seq<Event>, c: nat)
    requires |Run(Init(), events).calls| <= ID_SPACE && c < |Run(Init(), events).calls|
    requires Run(Init(), events).calls[c].phase.Returned?
    ensures var s := Run(Init(), events);
      var t := Step(s, TakeResponse(s.calls[c].id));
      t.hand == s.hand && t.pending == s.pending && t.calls == s.calls
  {
    RunKeepsInv(events);
    assert CallOk(Run(Init(), events), c);
  }

  lemma ReturnedStays(s: State, e: Event, c: nat)
    requires c < |s.calls| && s.calls[c].phase.Returned?
    ensures c < |Step(s, e).calls| && Step(s, e).calls[c] == s.calls[c]
  {
  }

  /** A result is final: nothing any party does later changes a returned call. */
  lemma {:induction false} ReturnedIsFinal(events: seq<Event>, n: nat, c: nat)
    requires n <= |events| && c < |Run(Init(), events[..n]).calls|
    requires Run(Init(), events[..n]).calls[c].phase.Returned?
    ensures c < |Run(Init(), events).calls| && Run(Init(), events).calls[c] == Run(Init(), events[..n]).calls[c]
  {
    if n < |events| {
      var shorter := events[..|events| - 1];
      assert shorter[..n] == events[..n];
      ReturnedIsFinal(shorter, n, c);
      ReturnedStays(Run(Init(), shorter), events[|events| - 1], c);
    } else {
      assert events[..n] == events;
    }
  }

  // ----- the bound of 2^64 requests is tight

  /** The id of the call issued after `c` others. */
  function IdOf(c: nat): u64 {
    (c + 1) % ID_SPACE
  }

  lemma OnlyIssueGrows(s: State, e: Event)
    requires e != Issue
    ensures |Step(s, e).calls| == |s.calls| && Step(s, e).next == s.next
  {
  }

  /** Without any bound on the run, ids follow the order of issue modulo 2^64. */
  lemma {:induction false} IdsFollowIssue(events: seq<Event>)
    ensures Run(Init(), events).next == IdOf(|Run(Init(), events).calls|)
    ensures forall c :: 0 <= c < |Run(Init(), events).calls| ==> Run(Init(), events).calls[c].id == IdOf(c)
  {
    if events != [] {
      var s, e := Run(Init(), events[..|events| - 1]), events[|events| - 1];
      IdsFollowIssue(events[..|events| - 1]);
      if e == Issue {
        NextWraps(|s.calls| + 1, 0);
      } else {
        OnlyIssueGrows(s, e);
      }
      forall c | 0 <= c < |s.calls|
        ensures Step(s, e).calls[c].id == IdOf(c)
      {
        StepKeepsIds(s, e, c);
      }
    }
  }

  lemma IdsRepeatExactly(n: nat)
    ensures (forall c: nat, d: nat :: c < d < n ==> IdOf(c) != IdOf(d)) <==> n <= ID_SPACE
  {
    if n > ID_SPACE {
      assert IdOf(0) == 1 == IdOf(ID_SPACE);
    }
  }

  /** On every run, no id is issued twice exactly when at most 2^64 were issued. */
  lemma IdsDistinctExactly(events: seq<Event>)
    ensures var calls := Run(Init(), events).calls;
      (forall c: nat, d: nat :: c < d < |calls| ==> calls[c].id != calls[d].id) <==> |calls| <= ID_SPACE
  {
    IdsFollowIssue(events);
    IdsRepeatExactly(|Run(Init(), events).calls|);
  }

  function Issues(n: nat): seq<Event> {
    seq(n, i => Issue)
  }

  lemma {:induction false} RunSplits(s: State, a: seq<Event>, b: seq<Event>)
    ensures Run(s, a + b) == Run(Run(s, a), b)
  {
    if b == [] {
      assert a + b == a;
    } else {
      assert (a + b)[..|a + b| - 1] == a + b[..|b| - 1];
      RunSplits(s, a, b[..|b| - 1]);
    }
  }

  lemma NextWraps(a: nat, n: nat)
    ensures ((a + n) % ID_SPACE + 1) % ID_SPACE == (a + n + 1) % ID_SPACE
  {
  }

  lemma {:induction false} AfterIssues(s: State, n: nat)
    ensures var t := Run(s, Issues(n));
      && |t.calls| == |s.calls| + n
      && t.next == (s.next + n) % ID_SPACE
      && t.pending == s.pending && t.hand == s.hand
      && (forall c :: 0 <= c < |s.calls| ==> t.calls[c] == s.calls[c])
  {
    if n > 0 {
      assert Issues(n)[..n - 1] == Issues(n - 1);
      AfterIssues(s, n - 1);
      NextWraps(s.next, n - 1);
    }
  }

  /** Call 0 waits while 2^64 - 1 more ids are issued; the next call takes id 1 again
      and its sender evicts call 0's, which then sees a disconnected channel. */
  function WrapAround(): seq<Event> {
    [Issue, Insert(0), Write(0, true)] + Issues(ID_SPACE - 1) + [Issue, Insert(ID_SPACE), Disconnect(0)]
  }

  lemma FirstThree()
    ensures Run(Init(), [Issue, Insert(0), Write(0, true)]) == State(2, map[1 := 0], None, [Call(1, Waiting, [])], 0)
  {
    var three := [Issue, Insert(0), Write(0, true)];
    assert three[..2] == [Issue, Insert(0)] && three[..2][..1] == [Issue] && three[..1][..0] == [];
    assert Run(Init(), three[..1]) == State(2, map[], None, [Call(1, Issued, [])], 0);
    assert Run(Init(), three[..2]) == State(2, map[1 := 0], None, [Call(1, Registered, [])], 0);
  }

  lemma WrapAroundPrepares()
    ensures var t := Run(Init(), [Issue, Insert(0), Write(0, true)] + Issues(ID_SPACE - 1));
      && t.next == 1 && |t.calls| == ID_SPACE && t.pending == map[1 := 0] && t.hand == None
      && t.calls[0] == Call(1, Waiting, [])
  {
    var first := [Issue, Insert(0), Write(0, true)];
    FirstThree();
    AfterIssues(Run(Init(), first), ID_SPACE - 1);
    RunSplits(Init(), first, Issues(ID_SPACE - 1));
  }

  lemma ReusedIdDisconnects(t: State)
    requires t.next == 1 && |t.calls| == ID_SPACE && t.pending == map[1 := 0] && t.hand == None
    requires t.calls[0] == Call(1, Waiting, [])
    ensures var s := Step(Step(Step(t, Issue), Insert(ID_SPACE)), Disconnect(0));
      && |s.calls| == ID_SPACE + 1
      && s.calls[0].id == s.calls[ID_SPACE].id == 1
      && s.calls[0].phase == Returned(Disconnected)
  {
    var u := Step(t, Issue);
    assert u.calls[ID_SPACE] == Call(1, Issued, []) && u.calls[0] == Call(1, Waiting, []);
    var v := Step(u, Insert(ID_SPACE));
    assert v.pending[1] == ID_SPACE && !SenderAlive(v, 0);
  }

  lemma WrapAroundDisconnects()
    ensures var s := Run(Init(), WrapAround());
      && |s.calls| == ID_SPACE + 1
      && s.calls[0].id == s.calls[ID_SPACE].id == 1
      && s.calls[0].phase == Returned(Disconnected)
  {
    var before := [Issue, Insert(0), Write(0, true)] + Issues(ID_SPACE - 1);
    var t := Run(Init(), before);
    WrapAroundPrepares();
    ReusedIdDisconnects(t);
    RunThree(t, Issue, Insert(ID_SPACE), Disconnect(0));
    RunSplits(Init(), before, [Issue, Insert(ID_SPACE), Disconnect(0)]);
  }

  predicate NoneDisconnected(s: State) {
    forall c :: 0 <= c < |s.calls| ==> s.calls[c].phase != Returned(Disconnected)
  }

  /** All runs of at most `n` requests keep every caller from seeing a disconnected channel
      exactly when `n` is at most 2^64. */
  lemma NeverDisconnectedExactly(n: nat)
    ensures (forall events :: |Run(Init(), events).calls| <= n ==> NoneDisconnected(Run(Init(), events)))
      <==> n <= ID_SPACE
  {
    if n <= ID_SPACE {
      forall events | |Run(Init(), events).calls| <= n
        ensures NoneDisconnected(Run(Init(), events))
      {
        RequestTableIsSafe(events);
      }
    } else {
      WrapAroundDisconnects();
      assert !NoneDisconnected(Run(Init(), WrapAround()));
    }
  }

  lemma RunThree(s: State, a: Event, b: Event, c: Event)
    ensures Run(s, [a, b, c]) == Step(Step(Step(s, a), b), c)
  {
    RunSplits(s, [a, b], [c]);
    RunSplits(s, [a], [b]);
    assert [a, b] + [c] == [a, b, c] && [a] + [b] == [a, b];
    assert forall t, e :: Run(t, [e]) == Step(t, e) by {
      forall t, e
        ensures Run(t, [e]) == Step(t, e)
      {
        assert [e][..0] == [];
      }
    }
  }

  // ----- the session object whose locked sections are the steps

  lemma NothingToDrain(calls: seq<Call>)
    ensures DrainCalls(map[], calls) == calls
  {
  }

  lemma DrainOne(pending: map<u64, nat>, calls: seq<Call>, id: u64)
    requires id in pending && pending[id] < |calls| && calls[pending[id]].id == id
    ensures var c := pending[id];
      DrainCalls(pending - {id}, calls[c := Send(calls[c], Drained)]) == DrainCalls(pending, calls)
  {
    var c := pending[id];
    var after := calls[c := Send(calls[c], Drained)];
    forall d | 0 <= d < |calls|
      ensures DrainCalls(pending - {id}, after)[d] == DrainCalls(pending, calls)[d]
    {
    }
  }

  class Session {
    var next: u64
    var pending: map<u64, nat>
    var hand: Option<Held>
    var calls: seq<Call>
    var responses: nat

    ghost function View(): State
      reads this
    {
      State(next, pending, hand, calls, responses)
    }

    /** Table entries point at the calls that own their ids. */
    ghost predicate Valid()
      reads this
    {
      forall id :: id in pending ==> pending[id] < |calls| && calls[pending[id]].id == id
    }

    constructor ()
      ensures Valid() && View() == Init()
    {
      next, pending, hand, calls, responses := 1, map[], None, [], 0;
    }

    /** `fetch_add` on the id counter and a new channel. */
    method IssueId() returns (call: nat)
      requires Valid()
      modifies this
      ensures Valid() && call == |old(calls)| && View() == Step(old(View()), Issue)
    {
      call := |calls|;
      calls := calls + [Call(next, Issued, [])];
      next := (next + 1) % ID_SPACE;
    }

    method InsertPending(call: nat)
      requires Valid() && In(View(), call, Issued)
      modifies this
      ensures Valid() && View() == Step(old(View()), Insert(call))
    {
      pending := pending[calls[call].id := call];
      calls := calls[call := calls[call].(phase := Registered)];
    }

    /** The caller's own removal after a failed write or a timeout. */
    method RemovePending(call: nat)
      requires Valid() && (In(View(), call, WriteFailed) || In(View(), call, Expired))
      modifies this
      ensures Valid()
      ensures View() ==
        Step(old(View()), if old(calls)[call].phase == Expired then RemoveExpired(call) else RemoveUnsent(call))
    {
      pending := pending - {calls[call].id};
      var result := if calls[call].phase == Expired then TimedOut else WriteError;
      calls := calls[call := calls[call].(phase := Returned(result))];
    }

    /** The reader's removal under the lock, for a response with this id. */
    method TakePending(id: u64)
      requires Valid() && hand.None?
      modifies this
      ensures Valid() && View() == Step(old(View()), TakeResponse(id))
    {
      if id in pending {
        hand := Some(Held(pending[id], Response(responses, id)));
        pending := pending - {id};
      }
      responses := responses + 1;
    }

    /** Under one lock, every pending sender is drained and told of the failure. */
    method FailPending()
      requires Valid()
      modifies this
      ensures Valid() && View() == Step(old(View()), Drain)
    {
      ghost var drained := DrainCalls(pending, calls);
      while pending != map[]
        invariant Valid()
        invariant |calls| == |old(calls)| && DrainCalls(pending, calls) == drained
        invariant next == old(next) && hand == old(hand) && responses == old(responses)
        decreases |pending|
      {
        var id :| id in pending;
        var call := pending[id];
        DrainOne(pending, calls, id);
        calls := calls[call := Send(calls[call], Drained)];
        pending := pending - {id};
      }
      NothingToDrain(calls);
    }
  }
}
