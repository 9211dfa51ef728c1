/** What the results of requests mean: how a call ends in terms of the events that led to it,
    on every run. */
module RequestResults {
  import opened Wrappers
  import opened Machine
  import opened RequestTable

  /** The states of a run: `states[n]` is the one before event `n`. */
  ghost predicate IsRun(states: seq<State>, events: seq<Event>) {
    && |states| == |events| + 1
    && states[0] == Init()
    && forall n :: 0 <= n < |events| ==> states[n + 1] == Step(states[n], events[n])
  }

  lemma {:induction false} RunReaches(states: seq<State>, events: seq<Event>, n: nat)
    requires IsRun(states, events) && n <= |events|
    ensures states[n] == Run(Init(), events[..n])
  {
    if n > 0 {
      RunReaches(states, events, n - 1);
      assert events[..n][..n - 1] == events[..n - 1];
      assert states[n - 1 + 1] == Step(states[n - 1], events[n - 1]);
    }
  }

  /** Every list of events has its states. */
  lemma {:induction false} RunExists(events: seq<Event>) returns (states: seq<State>)
    ensures IsRun(states, events)
    decreases |events|
  {
    if events == [] {
      states := [Init()];
    } else {
      var n := |events| - 1;
      var front := RunExists(events[..n]);
      states := front + [Step(front[n], events[n])];
      forall k | 0 <= k < |events|
        ensures states[k + 1] == Step(states[k], events[k])
      {
        assert k < n ==> events[..n][k] == events[k];
      }
    }
  }

  // ----- what an event can do for call `c`

  /** Its sender is stored. */
  predicate Stores(s: State, e: Event, c: nat) {
    e == Insert(c) && In(s, c, Issued)
  }

  /** Its request is written, or not. */
  predicate Writes(s: State, e: Event, c: nat, ok: bool) {
    e == Write(c, ok) && In(s, c, Registered)
  }

  /** It receives while `d` is first on its channel. */
  predicate Receives(s: State, e: Event, c: nat, d: Delivery) {
    e == Receive(c) && In(s, c, Waiting) && s.calls[c].channel != [] && s.calls[c].channel[0] == d
  }

  /** Its time runs out with nothing on its channel. */
  predicate RunsOut(s: State, e: Event, c: nat) {
    e == Timeout(c) && In(s, c, Waiting) && s.calls[c].channel == []
  }

  /** It finds every sender gone, with nothing on its channel. */
  predicate FindsNobody(s: State, e: Event, c: nat) {
    e == Disconnect(c) && In(s, c, Waiting) && s.calls[c].channel == [] && !SenderAlive(s, c)
  }

  // ----- the history of a call

  /** Which of these have happened; `failedGone` and `expiredGone` say that the caller then
      removed its own entry. */
  datatype History = History(
    stored: bool, written: bool, failed: bool, received: bool, ranOut: bool, lost: bool,
    failedGone: bool, expiredGone: bool)

  const NOTHING := History(false, false, false, false, false, false, false, false)

  function Next(s: State, e: Event, c: nat, d: Delivery, h: History): History {
    History(
      h.stored || Stores(s, e, c),
      h.written || Writes(s, e, c, true),
      h.failed || Writes(s, e, c, false),
      h.received || Receives(s, e, c, d),
      h.ranOut || RunsOut(s, e, c),
      h.lost || FindsNobody(s, e, c),
      h.failedGone || (h.failed && e == RemoveUnsent(c)),
      h.expiredGone || (h.ranOut && e == RemoveExpired(c)))
  }

  function HistoryOf(states: seq<State>, events: seq<Event>, n: nat, c: nat, d: Delivery): History
    requires n <= |events| <= |states|
  {
    if n == 0 then NOTHING
    else Next(states[n - 1], events[n - 1], c, d, HistoryOf(states, events, n - 1, c, d))
  }

  /** The phase of a call says exactly what has happened to it. */
  predicate Fits(phase: Phase, d: Delivery, h: History) {
    && (h.stored <==> phase != Issued)
    && (h.written <==> phase.Waiting? || phase.Expired? || (phase.Returned? && phase.result != WriteError))
    && (h.failed <==> phase == WriteFailed || phase == Returned(WriteError))
    && (h.failedGone <==> phase == Returned(WriteError))
    && (h.ranOut <==> phase == Expired || phase == Returned(TimedOut))
    && (h.expiredGone <==> phase == Returned(TimedOut))
    && (h.lost <==> phase == Returned(Disconnected))
    && (h.received <==> phase == Returned(Value(d)))
  }

  /** How a step moves the phase of a call. */
  lemma PhaseStep(s: State, e: Event, c: nat)
    requires c < |s.calls|
    ensures c < |Step(s, e).calls|
    ensures var phase := s.calls[c].phase;
      Step(s, e).calls[c].phase ==
        if Stores(s, e, c) then Registered
        else if Writes(s, e, c, true) then Waiting
        else if Writes(s, e, c, false) then WriteFailed
        else if RunsOut(s, e, c) then Expired
        else if FindsNobody(s, e, c) then Returned(Disconnected)
        else if e == RemoveUnsent(c) && phase == WriteFailed then Returned(WriteError)
        else if e == RemoveExpired(c) && phase == Expired then Returned(TimedOut)
        else if e == Receive(c) && phase == Waiting && s.calls[c].channel != []
          then Returned(Value(s.calls[c].channel[0]))
        else phase
  {
  }

  lemma StepFits(s: State, e: Event, c: nat, d: Delivery, h: History)
    requires c < |s.calls| && Fits(s.calls[c].phase, d, h)
    ensures c < |Step(s, e).calls| && Fits(Step(s, e).calls[c].phase, d, Next(s, e, c, d, h))
  {
    PhaseStep(s, e, c);
  }

  lemma {:induction false} HistoryFits(states: seq<State>, events: seq<Event>, n: nat, c: nat, d: Delivery)
    requires IsRun(states, events) && n <= |events|
    ensures if c < |states[n].calls|
            then Fits(states[n].calls[c].phase, d, HistoryOf(states, events, n, c, d))
            else HistoryOf(states, events, n, c, d) == NOTHING
  {
    if n > 0 {
      var s, e := states[n - 1], events[n - 1];
      assert states[n - 1 + 1] == Step(s, e);
      HistoryFits(states, events, n - 1, c, d);
      if c < |s.calls| {
        StepFits(s, e, c, d, HistoryOf(states, events, n - 1, c, d));
      } else {
        NewCallIsIssued(s, e, c);
      }
    }
  }

  lemma NewCallIsIssued(s: State, e: Event, c: nat)
    requires |s.calls| <= c
    ensures c < |Step(s, e).calls| ==> Step(s, e).calls[c].phase == Issued
  {
  }

  // ----- each part of the history as an event

  lemma {:induction false} ReceivedMeans(states: seq<State>, events: seq<Event>, n: nat, c: nat, d: Delivery)
    requires n <= |events| <= |states|
    ensures HistoryOf(states, events, n, c, d).received <==>
      exists k :: 0 <= k < n && Receives(states[k], events[k], c, d)
  {
    if n > 0 {
      ReceivedMeans(states, events, n - 1, c, d);
    }
  }

  lemma {:induction false} LostMeans(states: seq<State>, events: seq<Event>, n: nat, c: nat, d: Delivery)
    requires n <= |events| <= |states|
    ensures HistoryOf(states, events, n, c, d).lost <==>
      exists k :: 0 <= k < n && FindsNobody(states[k], events[k], c)
  {
    if n > 0 {
      LostMeans(states, events, n - 1, c, d);
    }
  }

  lemma {:induction false} RanOutMeans(states: seq<State>, events: seq<Event>, n: nat, c: nat, d: Delivery)
    requires n <= |events| <= |states|
    ensures HistoryOf(states, events, n, c, d).ranOut <==>
      exists m :: 0 <= m < n && RunsOut(states[m], events[m], c)
  {
    if n > 0 {
      RanOutMeans(states, events, n - 1, c, d);
    }
  }

  lemma {:induction false} FailedMeans(states: seq<State>, events: seq<Event>, n: nat, c: nat, d: Delivery)
    requires n <= |events| <= |states|
    ensures HistoryOf(states, events, n, c, d).failed <==>
      exists m :: 0 <= m < n && Writes(states[m], events[m], c, false)
  {
    if n > 0 {
      FailedMeans(states, events, n - 1, c, d);
    }
  }

  lemma {:induction false} ExpiredGoneMeans(states: seq<State>, events: seq<Event>, n: nat, c: nat, d: Delivery)
    requires n <= |events| <= |states|
    ensures HistoryOf(states, events, n, c, d).expiredGone <==>
      exists m, k :: 0 <= m < k < n && RunsOut(states[m], events[m], c) && events[k] == RemoveExpired(c)
  {
    if n > 0 {
      ExpiredGoneMeans(states, events, n - 1, c, d);
      RanOutMeans(states, events, n - 1, c, d);
    }
  }

  lemma {:induction false} FailedGoneMeans(states: seq<State>, events: seq<Event>, n: nat, c: nat, d: Delivery)
    requires n <= |events| <= |states|
    ensures HistoryOf(states, events, n, c, d).failedGone <==>
      exists m, k :: 0 <= m < k < n && Writes(states[m], events[m], c, false) && events[k] == RemoveUnsent(c)
  {
    if n > 0 {
      FailedGoneMeans(states, events, n - 1, c, d);
      FailedMeans(states, events, n - 1, c, d);
    }
  }

  // ----- the results

  /** On every run: a call has returned the value `d` exactly when it received while `d` was on
      its channel; it timed out exactly when its time ran out with an empty channel and it then
      removed its entry; it failed exactly when its write failed and it then removed its entry;
      and it was disconnected exactly when it found every sender gone. */
  lemma ResultsMean(states: seq<State>, events: seq<Event>, c: nat, d: Delivery)
    requires IsRun(states, events) && c < |Run(Init(), events).calls|
    ensures var phase := Run(Init(), events).calls[c].phase;
      && (phase == Returned(Value(d)) <==>
           exists k :: 0 <= k < |events| && Receives(states[k], events[k], c, d))
      && (phase == Returned(TimedOut) <==>
           exists m, k :: 0 <= m < k < |events| && RunsOut(states[m], events[m], c) && events[k] == RemoveExpired(c))
      && (phase == Returned(WriteError) <==>
           exists m, k :: 0 <= m < k < |events| && Writes(states[m], events[m], c, false)
                          && events[k] == RemoveUnsent(c))
      && (phase == Returned(Disconnected) <==>
           exists k :: 0 <= k < |events| && FindsNobody(states[k], events[k], c))
  {
    var n := |events|;
    RunReaches(states, events, n);
    assert events[..n] == events;
    HistoryFits(states, events, n, c, d);
    ReceivedMeans(states, events, n, c, d);
    ExpiredGoneMeans(states, events, n, c, d);
    FailedGoneMeans(states, events, n, c, d);
    LostMeans(states, events, n, c, d);
  }

  /** A waiting call with a message that receives has returned that very message for good. */
  lemma ReceiverGetsMessage(events: seq<Event>, n: nat, c: nat)
    requires n < |events| && events[n] == Receive(c)
    requires var s := Run(Init(), events[..n]); In(s, c, Waiting) && s.calls[c].channel != []
    ensures c < |Run(Init(), events).calls|
    ensures Run(Init(), events).calls[c].phase == Returned(Value(Run(Init(), events[..n]).calls[c].channel[0]))
  {
    var states := RunExists(events);
    RunReaches(states, events, n);
    CallsOnlyGrow(events, n);
    var d := states[n].calls[c].channel[0];
    assert Receives(states[n], events[n], c, d);
    ResultsMean(states, events, c, d);
  }

  /** A response for a registered request that is taken and sent, with nothing in between,
      is what its caller receives. */
  lemma ResponseArrives(events: seq<Event>, c: nat)
    requires |Run(Init(), events).calls| <= ID_SPACE && In(Run(Init(), events), c, Waiting)
    requires var s := Run(Init(), events); s.hand.None? && s.calls[c].id in s.pending
    ensures var s := Run(Init(), events);
      var t := Step(Step(Step(s, TakeResponse(s.calls[c].id)), SendHeld), Receive(c));
      && t.calls[c].phase == Returned(Value(Response(s.responses, s.calls[c].id)))
      && s.calls[c].id !in t.pending
  {
    RunKeepsInv(events);
    assert CallOk(Run(Init(), events), c);
  }

  /** When the server is gone: draining empties the table, and a caller that is waiting for a
      registered request receives the failure. */
  lemma DrainReachesCaller(events: seq<Event>, c: nat)
    requires |Run(Init(), events).calls| <= ID_SPACE && In(Run(Init(), events), c, Waiting)
    requires var s := Run(Init(), events); s.calls[c].id in s.pending
    ensures var drained := Step(Run(Init(), events), Drain);
      && |drained.pending| == 0
      && Step(drained, Receive(c)).calls[c].phase == Returned(Value(Drained))
  {
    var s := Run(Init(), events);
    RunKeepsInv(events);
    assert CallOk(s, c);
  }

  /** Draining sends nothing to a call that is not registered. */
  lemma DrainSparesOthers(s: State, c: nat)
    requires c < |s.calls| && (s.calls[c].id in s.pending ==> s.pending[s.calls[c].id] != c)
    ensures c < |Step(s, Drain).calls| && Step(s, Drain).calls[c] == s.calls[c]
    ensures Step(s, Drain).hand == s.hand && Step(s, Drain).next == s.next
  {
  }
}
