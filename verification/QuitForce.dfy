/** Asking whether to force the exit while other calls of the quit handshake are in progress:
    when the answer stays no after an acknowledgement has succeeded. */
module QuitForce {
  import opened Machine
  import opened QuitInterleaved

  // ----- what the exit would be forced on, at one instant

  predicate Forces(s: State, id: u64) {
    s.pending == id && s.acknowledged != id
  }

  /** While `id` is pending, the step stores something else as acknowledged: a new request
      or the last store of a completion or cancellation clears it, or a late acknowledgement
      of another id overwrites it. */
  predicate Wipes(a: Atomic, s: State, e: Event, id: u64) {
    At(s, e) && s.pending == id &&
    match s.threads[e.thread]
    case RequestClearAck(_) => !a.publish
    case CompleteClearAck(_) => true
    case CancelClearAck(_) => true
    case AckStore(other) => other != id
    case _ => false
  }

  lemma WipeForces(a: Atomic, s: State, e: Event, id: u64)
    requires id != 0 && Wipes(a, s, e, id)
    ensures Forces(Step(a, s, e), id)
  {
  }

  lemma OnlyWipesForce(a: Atomic, s: State, e: Event, id: u64)
    requires IdsOk(s) && id in s.published && !Forces(s, id) && !Wipes(a, s, e, id)
    ensures !Forces(Step(a, s, e), id)
  {
    NotRepublished(a, s, e, id);
  }

  predicate Unwiped(a: Atomic, events: seq<Event>, id: u64, i: nat, n: nat)
    requires n <= |events|
  {
    forall k :: i < k < n ==> !Wipes(a, Run(a, events[..k]), events[k], id)
  }

  /** Step `i` is the last access of an acknowledgement of `id` that succeeds. */
  predicate AcknowledgesAt(a: Atomic, events: seq<Event>, i: nat, id: u64)
    requires i < |events|
  {
    var s, e := Run(a, events[..i]), events[i];
    At(s, e) && !s.threads[e.thread].Acked? && Step(a, s, e).threads[e.thread] == Acked(id, true)
  }

  lemma AcknowledgingSettles(a: Atomic, s: State, e: Event, id: u64)
    requires Inv(s) && At(s, e) && !s.threads[e.thread].Acked? && Step(a, s, e).threads[e.thread] == Acked(id, true)
    ensures id != 0 && !Forces(Step(a, s, e), id) && id in Step(a, s, e).published
  {
    StepKeepsInv(a, s, e);
    assert ThreadOk(Step(a, s, e), e.thread);
  }

  lemma {:induction false} UnwipedStaysOff(a: Atomic, events: seq<Event>, id: u64, i: nat, n: nat)
    requires i < n <= |events| && Run(a, events).issued <= U64_MAX
    requires AcknowledgesAt(a, events, i, id) && Unwiped(a, events, id, i, n)
    ensures !Forces(Run(a, events[..n]), id) && id in Run(a, events[..n]).published
  {
    var s := Run(a, events[..n - 1]);
    RunKeepsInv(a, events[..n - 1]);
    RunKeepsIds(a, events, n - 1);
    RunOneMore(a, events, n - 1);
    if n == i + 1 {
      AcknowledgingSettles(a, s, events[i], id);
    } else {
      UnwipedStaysOff(a, events, id, i, n - 1);
      assert !Wipes(a, s, events[n - 1], id);
      OnlyWipesForce(a, s, events[n - 1], id);
      StepKeepsCounters(a, s, events[n - 1]);
    }
  }

  /** After a successful acknowledgement the forced exit stays off for its id through the
      rest of the run exactly when no later step wipes the acknowledgement while that id is
      pending. */
  lemma ForceStaysOffExactly(a: Atomic, events: seq<Event>, i: nat, id: u64)
    requires i < |events| && Run(a, events).issued <= U64_MAX && AcknowledgesAt(a, events, i, id)
    ensures (forall n :: i < n <= |events| ==> !Forces(Run(a, events[..n]), id)) <==>
      Unwiped(a, events, id, i, |events|)
  {
    if Unwiped(a, events, id, i, |events|) {
      forall n | i < n <= |events|
        ensures !Forces(Run(a, events[..n]), id)
      {
        UnwipedStaysOff(a, events, id, i, n);
      }
    } else {
      var k :| i < k < |events| && Wipes(a, Run(a, events[..k]), events[k], id);
      RunKeepsInv(a, events[..i]);
      AcknowledgingSettles(a, Run(a, events[..i]), events[i], id);
      WipeForces(a, Run(a, events[..k]), events[k], id);
      RunOneMore(a, events, k);
    }
  }

  // ----- when acknowledgements hold on every run

  /** No acknowledgement that has succeeded leaves the forced exit on for its id. */
  predicate AcknowledgementsHold(s: State) {
    forall t :: 0 <= t < |s.threads| && s.threads[t].Acked? && s.threads[t].ok ==> !Forces(s, s.threads[t].id)
  }

  predicate Settling(a: Atomic) {
    a.publish && a.acknowledge && a.withdraw
  }

  lemma {:induction false} NoHalves(a: Atomic, events: seq<Event>, t: nat)
    requires Settling(a) && t < |Run(a, events).threads|
    ensures var at := Run(a, events).threads[t]; !at.CompleteClearAck? && !at.CancelClearAck? && !at.AckStore?
  {
    if events != [] && t < |Run(a, events[..|events| - 1]).threads| {
      NoHalves(a, events[..|events| - 1], t);
    }
  }

  /** An acknowledgement that had succeeded before the step still holds after it. */
  lemma EarlierAckHolds(a: Atomic, s: State, e: Event, t: nat)
    requires Inv(s) && IdsOk(s) && AcknowledgementsHold(s) && t < |s.threads|
    requires s.threads[t].Acked? && s.threads[t].ok && !Wipes(a, s, e, s.threads[t].id)
    ensures !Forces(Step(a, s, e), s.threads[t].id)
  {
    assert ThreadOk(s, t);
    OnlyWipesForce(a, s, e, s.threads[t].id);
  }

  lemma AckedStays(a: Atomic, s: State, e: Event, t: nat)
    requires t < |s.threads| && s.threads[t].Acked?
    ensures t < |Step(a, s, e).threads| && Step(a, s, e).threads[t] == s.threads[t]
  {
  }

  lemma NewlyAcked(a: Atomic, s: State, e: Event, t: nat)
    requires t < |Step(a, s, e).threads| && Step(a, s, e).threads[t].Acked?
    requires t < |s.threads| ==> !s.threads[t].Acked?
    ensures At(s, e) && e.thread == t
  {
  }

  lemma SettledStepHolds(a: Atomic, s: State, e: Event, t: nat)
    requires Inv(s) && IdsOk(s) && AcknowledgementsHold(s) && t < |Step(a, s, e).threads|
    requires forall id :: !Wipes(a, s, e, id)
    ensures var at := Step(a, s, e).threads[t]; at.Acked? && at.ok ==> !Forces(Step(a, s, e), at.id)
  {
    var at := Step(a, s, e).threads[t];
    if at.Acked? && at.ok {
      if t < |s.threads| && s.threads[t].Acked? {
        AckedStays(a, s, e, t);
        EarlierAckHolds(a, s, e, t);
      } else {
        NewlyAcked(a, s, e, t);
        AcknowledgingSettles(a, s, e, at.id);
      }
    }
  }

  lemma {:induction false} SettlingHolds(a: Atomic, events: seq<Event>, n: nat)
    requires Settling(a) && n <= |events| && Run(a, events).issued <= U64_MAX
    ensures AcknowledgementsHold(Run(a, events[..n]))
  {
    if n > 0 {
      var s, e := Run(a, events[..n - 1]), events[n - 1];
      SettlingHolds(a, events, n - 1);
      RunKeepsInv(a, events[..n - 1]);
      RunKeepsIds(a, events, n - 1);
      RunOneMore(a, events, n - 1);
      if At(s, e) {
        NoHalves(a, events[..n - 1], e.thread);
      }
      forall t | 0 <= t < |Step(a, s, e).threads|
        ensures var at := Step(a, s, e).threads[t]; at.Acked? && at.ok ==> !Forces(Step(a, s, e), at.id)
      {
        SettledStepHolds(a, s, e, t);
      }
    }
  }

  /** A new request clears the acknowledgement of the pending one before it replaces it. */
  lemma NewRequestForces(a: Atomic)
    requires !a.publish
    ensures Reachable(a, ACKNOWLEDGED.(next := 2, acknowledged := 0, issued := 2,
                                       threads := ACKNOWLEDGED.threads + [RequestPublish(2)]))
  {
    HandshakeReached(a);
    var s1 := ACKNOWLEDGED.(threads := ACKNOWLEDGED.threads + [RequestAdd]);
    ReachStep(a, ACKNOWLEDGED, Call(RequestAdd), s1);
    var s2 := ACKNOWLEDGED.(next := 2, issued := 2, threads := ACKNOWLEDGED.threads + [RequestClearAck(2)]);
    ReachStep(a, s1, Advance(2), s2);
    ReachStep(a, s2, Advance(2), s2.(acknowledged := 0, threads := ACKNOWLEDGED.threads + [RequestPublish(2)]));
  }

  /** Request 2 is pending after request 1, while another call of request 1 is unfinished. */
  function Second(acknowledged: u64, other: Thread, seen: set<u64>): State {
    State(2, 2, acknowledged, [Requested(1), other, Requested(2), Acked(2, true)], {1, 2}, seen, 2)
  }

  lemma SecondReached(a: Atomic, s: State, other: Thread)
    requires Reachable(a, s) && s.next == 1 && s.threads == [Requested(1), other]
    requires s.published == {1} && s.issued == 1
    ensures Reachable(a, Second(2, other, s.seen + {2}))
  {
    ReachRequest(a, s);
    ReachAck(a, AfterRequest(s));
    assert AfterAck(AfterRequest(s)) == Second(2, other, s.seen + {2});
  }

  /** A late store of an acknowledgement of request 1 overwrites that of request 2. */
  lemma LateAcknowledgeForces(a: Atomic)
    requires !a.acknowledge
    ensures Reachable(a, Second(1, Acked(1, true), {1, 2}))
  {
    InitReached(a);
    ReachRequest(a, Init());
    var s0 := AfterRequest(Init());
    var s1 := s0.(threads := [Requested(1), AckLoad(1)]);
    ReachStep(a, s0, Call(AckLoad(1)), s1);
    var s2 := s0.(threads := [Requested(1), AckStore(1)], seen := {1});
    ReachStep(a, s1, Advance(1), s2);
    SecondReached(a, s2, AckStore(1));
    assert s2.seen + {2} == {1, 2};
    ReachStep(a, Second(2, AckStore(1), {1, 2}), Advance(1), Second(1, Acked(1, true), {1, 2}));
  }

  /** The last store of cancelling request 1 can wipe the acknowledgement of request 2: the
      forced exit is then on although acknowledging it succeeded. */
  lemma LateCancelForces(a: Atomic)
    requires !a.withdraw
    ensures Reachable(a, Second(0, Cancelled(1, true), {2}))
    ensures Forces(Second(0, Cancelled(1, true), {2}), 2)
  {
    InitReached(a);
    ReachRequest(a, Init());
    var s0 := AfterRequest(Init());
    var s1 := s0.(threads := [Requested(1), CancelLoad(1)]);
    ReachStep(a, s0, Call(CancelLoad(1)), s1);
    var s2 := s0.(threads := [Requested(1), CancelClearPending(1)]);
    ReachStep(a, s1, Advance(1), s2);
    var s3 := s0.(pending := 0, threads := [Requested(1), CancelClearAck(1)]);
    ReachStep(a, s2, Advance(1), s3);
    SecondReached(a, s3, CancelClearAck(1));
    assert s3.seen + {2} == {2};
    ReachStep(a, Second(2, CancelClearAck(1), {2}), Advance(1), Second(0, Cancelled(1, true), {2}));
  }

  lemma UnsettledBreaks(a: Atomic) returns (s: State, t: nat)
    requires !Settling(a)
    ensures Reachable(a, s) && s.issued <= 2
    ensures t < |s.threads| && s.threads[t].Acked? && s.threads[t].ok && Forces(s, s.threads[t].id)
  {
    if !a.publish {
      NewRequestForces(a);
      s := ACKNOWLEDGED.(next := 2, acknowledged := 0, issued := 2,
                         threads := ACKNOWLEDGED.threads + [RequestPublish(2)]);
      t := 1;
    } else if !a.acknowledge {
      LateAcknowledgeForces(a);
      s := Second(1, Acked(1, true), {1, 2});
      t := 3;
    } else {
      LateCancelForces(a);
      s := Second(0, Cancelled(1, true), {2});
      t := 3;
    }
  }

  // ----- a call made after the acknowledgement

  lemma {:induction false} AckedAlong(a: Atomic, events: seq<Event>, m: nat, n: nat, t: nat)
    requires m <= n <= |events| && t < |Run(a, events[..m]).threads| && Run(a, events[..m]).threads[t].Acked?
    ensures t < |Run(a, events[..n]).threads| && Run(a, events[..n]).threads[t] == Run(a, events[..m]).threads[t]
  {
    if m < n {
      var s := Run(a, events[..n - 1]);
      AckedAlong(a, events, m, n - 1, t);
      AckedStays(a, s, events[n - 1], t);
      RunOneMore(a, events, n - 1);
      assert Run(a, events[..n]) == Step(a, s, events[n - 1]);
    }
  }

  /** Event `c` calls for `r`, and an acknowledgement of `r` has succeeded by then. */
  predicate CalledAfterAck(a: Atomic, events: seq<Event>, c: nat, r: u64)
    requires c < |events|
  {
    events[c] == Call(ForceLoadPending(r)) && Acked(r, true) in Run(a, events[..c]).threads
  }

  /** The call made at event `c` has returned true. */
  predicate ReturnedTrue(a: Atomic, events: seq<Event>, c: nat, r: u64)
    requires c < |events|
  {
    var t := |Run(a, events[..c]).threads|;
    t < |Run(a, events).threads| && Run(a, events).threads[t] == Forced(r, true)
  }

  /** No call made after an acknowledgement of its id had succeeded returned true. */
  ghost predicate NeverForced(a: Atomic, events: seq<Event>) {
    forall c: nat, r: u64 :: c < |events| && CalledAfterAck(a, events, c, r) ==> !ReturnedTrue(a, events, c, r)
  }

  lemma CallStarts(a: Atomic, events: seq<Event>, c: nat, r: u64)
    requires c < |events| && events[c] == Call(ForceLoadPending(r))
    ensures Run(a, events[..c + 1]).threads == Run(a, events[..c]).threads + [ForceLoadPending(r)]
  {
    RunOneMore(a, events, c);
  }

  lemma ForceStep(a: Atomic, s: State, e: Event, t: nat, r: u64)
    requires a.force && t < |s.threads| && s.threads[t] in {ForceLoadPending(r), Forced(r, false)} && !Forces(s, r)
    ensures t < |Step(a, s, e).threads| && Step(a, s, e).threads[t] in {ForceLoadPending(r), Forced(r, false)}
  {
  }

  lemma AckHoldsAt(a: Atomic, events: seq<Event>, c: nat, r: u64, n: nat)
    requires Settling(a) && c <= n <= |events| && Run(a, events).issued <= U64_MAX
    requires Acked(r, true) in Run(a, events[..c]).threads
    ensures !Forces(Run(a, events[..n]), r)
  {
    var u :| 0 <= u < |Run(a, events[..c]).threads| && Run(a, events[..c]).threads[u] == Acked(r, true);
    AckedAlong(a, events, c, n, u);
    SettlingHolds(a, events, n);
  }

  lemma {:induction false} CallStaysFalse(a: Atomic, events: seq<Event>, c: nat, r: u64, n: nat)
    requires Settling(a) && a.force && c < n <= |events| && Run(a, events).issued <= U64_MAX
    requires CalledAfterAck(a, events, c, r)
    ensures var t := |Run(a, events[..c]).threads|;
      t < |Run(a, events[..n]).threads| && Run(a, events[..n]).threads[t] in {ForceLoadPending(r), Forced(r, false)}
  {
    if c + 1 == n {
      CallStarts(a, events, c, r);
    } else {
      CallStaysFalse(a, events, c, r, n - 1);
      AckHoldsAt(a, events, c, r, n - 1);
      RunOneMore(a, events, n - 1);
      ForceStep(a, Run(a, events[..n - 1]), events[n - 1], |Run(a, events[..c]).threads|, r);
    }
  }

  lemma SettledNeverForces(a: Atomic, events: seq<Event>)
    requires Settling(a) && a.force && Run(a, events).issued <= U64_MAX
    ensures NeverForced(a, events)
  {
    forall c: nat, r: u64 | c < |events| && CalledAfterAck(a, events, c, r)
      ensures !ReturnedTrue(a, events, c, r)
    {
      CallStaysFalse(a, events, c, r, |events|);
      assert events[..|events|] == events;
    }
  }

  // ----- runs in which such a call returns true

  lemma Extend(a: Atomic, events: seq<Event>, e: Event)
    ensures Run(a, events + [e]) == Step(a, Run(a, events), e)
  {
    assert (events + [e])[..|events|] == events;
  }

  /** A whole call, made when the exit would be forced on. */
  function WholeCall(events: seq<Event>, r: u64, t: nat): seq<Event> {
    events + [Call(ForceLoadPending(r))] + [Advance(t)] + [Advance(t)]
  }

  lemma CallReturns(a: Atomic, s: State, r: u64)
    requires Forces(s, r)
    ensures var t := |s.threads|;
      var asked := Step(a, s.(threads := s.threads + [ForceLoadPending(r)]), Advance(t));
      Step(a, asked, Advance(t)) == s.(threads := s.threads + [Forced(r, true)])
  {
  }

  lemma WholeCallRuns(a: Atomic, events: seq<Event>, r: u64)
    requires Forces(Run(a, events), r)
    ensures var s := Run(a, events);
      Run(a, WholeCall(events, r, |s.threads|)) == s.(threads := s.threads + [Forced(r, true)])
  {
    var s, t := Run(a, events), |Run(a, events).threads|;
    var called := events + [Call(ForceLoadPending(r))];
    Extend(a, events, Call(ForceLoadPending(r)));
    assert Run(a, called) == s.(threads := s.threads + [ForceLoadPending(r)]);
    Extend(a, called, Advance(t));
    Extend(a, called + [Advance(t)], Advance(t));
    CallReturns(a, s, r);
  }

  lemma LateCall(a: Atomic, events: seq<Event>, w: seq<Event>, r: u64)
    requires |events| < |w| && w[..|events|] == events && w[|events|] == Call(ForceLoadPending(r))
    requires Acked(r, true) in Run(a, events).threads
    requires |Run(a, events).threads| < |Run(a, w).threads|
    requires Run(a, w).threads[|Run(a, events).threads|] == Forced(r, true)
    ensures !NeverForced(a, w)
  {
    assert CalledAfterAck(a, w, |events|, r) && ReturnedTrue(a, w, |events|, r);
  }

  lemma WholeCallForces(a: Atomic, events: seq<Event>, r: u64)
    requires Acked(r, true) in Run(a, events).threads && Forces(Run(a, events), r)
    ensures !NeverForced(a, WholeCall(events, r, |Run(a, events).threads|))
    ensures Run(a, WholeCall(events, r, |Run(a, events).threads|)).issued == Run(a, events).issued
  {
    WholeCallRuns(a, events, r);
    LateCall(a, events, WholeCall(events, r, |Run(a, events).threads|), r);
  }

  /** A cancellation falls between the two loads of the call. */
  function CancelBetween(events: seq<Event>): seq<Event> {
    events + [Call(ForceLoadPending(1))] + [Call(CancelLoad(1))] + [Advance(3)] + [Advance(2)]
    + [Advance(3)] + [Advance(3)] + [Advance(2)]
  }

  function Between(pending: u64, acknowledged: u64, force: Thread, cancel: Thread): State {
    State(1, pending, acknowledged, [Requested(1), Acked(1, true), force, cancel], {1}, {1}, 1)
  }

  lemma CancelStarts(a: Atomic, s: State)
    requires !a.force && s == ACKNOWLEDGED
    ensures var called := Step(a, Step(a, s, Call(ForceLoadPending(1))), Call(CancelLoad(1)));
      Step(a, Step(a, called, Advance(3)), Advance(2)) == Between(1, 1, ForceLoadAck(1), CancelClearPending(1))
  {
    var called := Step(a, Step(a, s, Call(ForceLoadPending(1))), Call(CancelLoad(1)));
    assert called == Between(1, 1, ForceLoadPending(1), CancelLoad(1));
    assert Step(a, called, Advance(3)) == Between(1, 1, ForceLoadPending(1), CancelClearPending(1));
  }

  lemma CancelFinishes(a: Atomic, s: State)
    requires s == Between(1, 1, ForceLoadAck(1), CancelClearPending(1))
    ensures var cancelled := Step(a, Step(a, s, Advance(3)), Advance(3));
      Step(a, cancelled, Advance(2)) == Between(0, 0, Forced(1, true), Cancelled(1, true))
  {
    var cancelled := Step(a, Step(a, s, Advance(3)), Advance(3));
    assert cancelled == Between(0, 0, ForceLoadAck(1), Cancelled(1, true));
  }

  lemma FourMore(a: Atomic, events: seq<Event>, e: Event, f: Event, g: Event, h: Event)
    ensures Run(a, events + [e] + [f] + [g] + [h]) == Step(a, Step(a, Step(a, Step(a, Run(a, events), e), f), g), h)
  {
    Extend(a, events, e);
    Extend(a, events + [e], f);
    Extend(a, events + [e] + [f], g);
    Extend(a, events + [e] + [f] + [g], h);
  }

  lemma CancelBetweenForces(a: Atomic, events: seq<Event>)
    requires !a.force && Run(a, events) == ACKNOWLEDGED
    ensures !NeverForced(a, CancelBetween(events)) && Run(a, CancelBetween(events)).issued == 1
  {
    var half := events + [Call(ForceLoadPending(1))] + [Call(CancelLoad(1))] + [Advance(3)] + [Advance(2)];
    var w, c := CancelBetween(events), |events|;
    FourMore(a, events, Call(ForceLoadPending(1)), Call(CancelLoad(1)), Advance(3), Advance(2));
    CancelStarts(a, Run(a, events));
    Extend(a, half, Advance(3));
    Extend(a, half + [Advance(3)], Advance(3));
    Extend(a, half + [Advance(3)] + [Advance(3)], Advance(2));
    CancelFinishes(a, Run(a, half));
    assert Run(a, w) == Between(0, 0, Forced(1, true), Cancelled(1, true));
    assert w[..c] == events && w[c] == Call(ForceLoadPending(1));
    assert ACKNOWLEDGED.threads[1] == Acked(1, true);
    LateCall(a, events, w, 1);
  }

  lemma ForcingRun(a: Atomic) returns (events: seq<Event>)
    requires !(Settling(a) && a.force)
    ensures Run(a, events).issued <= 2 && !NeverForced(a, events)
  {
    if !Settling(a) {
      var s, t := UnsettledBreaks(a);
      var start :| Run(a, start) == s;
      WholeCallForces(a, start, s.threads[t].id);
      events := WholeCall(start, s.threads[t].id, |s.threads|);
    } else {
      HandshakeReached(a);
      var start :| Run(a, start) == ACKNOWLEDGED;
      CancelBetweenForces(a, start);
      events := CancelBetween(start);
    }
  }

  /** On all runs of at most 2^64 - 1 requests, no call made after an acknowledgement of its id
      had succeeded returns true, exactly when the two stores of a request, the load and store
      of an acknowledgement, the two stores of a withdrawal, and the two loads of the call are
      each one step. */
  lemma NeverForcedExactlyWhenSettling(a: Atomic)
    ensures (forall events :: Run(a, events).issued <= U64_MAX ==> NeverForced(a, events)) <==>
      a.publish && a.acknowledge && a.withdraw && a.force
  {
    if Settling(a) && a.force {
      forall events | Run(a, events).issued <= U64_MAX
        ensures NeverForced(a, events)
      {
        SettledNeverForces(a, events);
      }
    } else {
      var events := ForcingRun(a);
      assert !NeverForced(a, events);
    }
  }

  /** In the program an acknowledged request can be answered with a forced exit, and two
      completions of one request can both return true. */
  lemma ProgramBreaks()
    ensures PROGRAM == Atomic(false, false, false, false, false)
    ensures exists events :: Run(PROGRAM, events).issued <= 2 && !NeverForced(PROGRAM, events)
    ensures Reachable(PROGRAM, Second(0, Cancelled(1, true), {2}))
    ensures Reachable(PROGRAM, During(0, 0, Completed(1, true), Completed(1, true)))
  {
    var events := ForcingRun(PROGRAM);
    LateCancelForces(PROGRAM);
    CompletesTwice(PROGRAM);
  }

  // ----- one run: when the call returns true

  /** What the step stores as acknowledged, if anything. */
  function StoredAck(a: Atomic, s: State, e: Event): (stored: (bool, u64)) {
    if !At(s, e) then (false, 0)
    else
      match s.threads[e.thread]
      case RequestClearAck(_) => (true, 0)
      case AckLoad(id) => (a.acknowledge && id != 0 && s.pending == id, id)
      case AckStore(id) => (true, id)
      case CompleteLoadPending(id) => (a.take && a.withdraw && s.pending == id == s.acknowledged, 0)
      case CompleteClearPending(_) => (a.withdraw, 0)
      case CancelClearPending(_) => (a.withdraw, 0)
      case CompleteClearAck(_) => (true, 0)
      case CancelClearAck(_) => (true, 0)
      case _ => (false, 0)
  }

  lemma StoredAckIsStored(a: Atomic, s: State, e: Event)
    ensures Step(a, s, e).acknowledged == if StoredAck(a, s, e).0 then StoredAck(a, s, e).1 else s.acknowledged
  {
  }

  predicate StoresOther(a: Atomic, events: seq<Event>, k: nat, r: u64)
    requires k < |events|
  {
    var stored := StoredAck(a, Run(a, events[..k]), events[k]);
    stored.0 && stored.1 != r
  }

  predicate StoresSame(a: Atomic, events: seq<Event>, k: nat, r: u64)
    requires k < |events|
  {
    StoredAck(a, Run(a, events[..k]), events[k]) == (true, r)
  }

  /** After event `i` and before `n` something else is stored over the acknowledgement of `r`,
      and `r` is not stored again. */
  predicate Overwritten(a: Atomic, events: seq<Event>, i: nat, n: nat, r: u64)
    requires n <= |events|
  {
    exists k :: i < k < n && StoresOther(a, events, k, r) && forall m :: k < m < n ==> !StoresSame(a, events, m, r)
  }

  lemma OverwrittenNext(a: Atomic, events: seq<Event>, i: nat, n: nat, r: u64)
    requires i < n < |events|
    ensures Overwritten(a, events, i, n + 1, r) <==>
      StoresOther(a, events, n, r) || (Overwritten(a, events, i, n, r) && !StoresSame(a, events, n, r))
  {
    if Overwritten(a, events, i, n, r) && !StoresSame(a, events, n, r) {
      var k :| i < k < n && StoresOther(a, events, k, r) && forall m :: k < m < n ==> !StoresSame(a, events, m, r);
      assert forall m :: k < m < n + 1 ==> !StoresSame(a, events, m, r);
    }
  }

  /** Once `r` is stored as acknowledged, it is so until it is overwritten. */
  lemma {:induction false} OverwrittenIsLost(a: Atomic, events: seq<Event>, i: nat, n: nat, r: u64)
    requires i < n <= |events| && Run(a, events[..i + 1]).acknowledged == r
    ensures Overwritten(a, events, i, n, r) <==> Run(a, events[..n]).acknowledged != r
  {
    if i + 1 < n {
      OverwrittenIsLost(a, events, i, n - 1, r);
      OverwrittenNext(a, events, i, n - 1, r);
      RunOneMore(a, events, n - 1);
      StoredAckIsStored(a, Run(a, events[..n - 1]), events[n - 1]);
    }
  }

  /** Event `f` is the first load of call `t`, and finds `r` pending. */
  predicate FindsPending(a: Atomic, events: seq<Event>, f: nat, t: nat, r: u64)
    requires f < |events|
  {
    var s := Run(a, events[..f]);
    events[f] == Advance(t) && t < |s.threads| && s.threads[t] == ForceLoadPending(r) && s.pending == r
  }

  /** Event `g` is the load of the acknowledgement by call `t`, after which it returns. */
  predicate LoadsAck(a: Atomic, events: seq<Event>, g: nat, t: nat, r: u64)
    requires g < |events|
  {
    var s := Run(a, events[..g]);
    && events[g] == Advance(t) && t < |s.threads|
    && (s.threads[t] == ForceLoadAck(r) || (a.force && s.threads[t] == ForceLoadPending(r) && s.pending == r))
  }

  /** Before event `n` the call found its id pending, and then its acknowledgement overwritten,
      whatever was pending by then. */
  predicate FoundLost(a: Atomic, events: seq<Event>, i: nat, c: nat, n: nat, t: nat, r: u64)
    requires n <= |events|
  {
    exists f, g :: c < f <= g < n && FindsPending(a, events, f, t, r) && LoadsAck(a, events, g, t, r)
                   && Overwritten(a, events, i, g, r)
  }

  predicate FoundPending(a: Atomic, events: seq<Event>, c: nat, n: nat, t: nat, r: u64)
    requires n <= |events|
  {
    exists f :: c < f < n && FindsPending(a, events, f, t, r)
  }

  lemma FoundLostNext(a: Atomic, events: seq<Event>, i: nat, c: nat, n: nat, t: nat, r: u64)
    requires c < n < |events|
    ensures FoundLost(a, events, i, c, n + 1, t, r) <==>
      || FoundLost(a, events, i, c, n, t, r)
      || (FoundPending(a, events, c, n + 1, t, r) && LoadsAck(a, events, n, t, r) && Overwritten(a, events, i, n, r))
  {
  }

  /** Where the call is before event `n`. */
  predicate CallAt(a: Atomic, events: seq<Event>, i: nat, c: nat, n: nat, t: nat, r: u64)
    requires n <= |events|
  {
    var s := Run(a, events[..n]);
    && t < |s.threads|
    && s.threads[t] in {ForceLoadPending(r), ForceLoadAck(r), Forced(r, false), Forced(r, true)}
    && (s.threads[t] == ForceLoadAck(r) ==> !a.force && FoundPending(a, events, c, n, t, r))
    && (s.threads[t] == Forced(r, true) <==> FoundLost(a, events, i, c, n, t, r))
  }

  lemma CallMoves(a: Atomic, events: seq<Event>, i: nat, c: nat, n: nat, t: nat, r: u64)
    requires i < c < n < |events| && Run(a, events[..i + 1]).acknowledged == r
    requires CallAt(a, events, i, c, n, t, r) && events[n] == Advance(t)
    ensures CallAt(a, events, i, c, n + 1, t, r)
  {
    RunOneMore(a, events, n);
    OverwrittenIsLost(a, events, i, n, r);
    FoundLostNext(a, events, i, c, n, t, r);
    var s := Run(a, events[..n]);
    if s.threads[t] == ForceLoadPending(r) && s.pending == r {
      assert FindsPending(a, events, n, t, r);
      assert FoundPending(a, events, c, n + 1, t, r);
    } else if s.threads[t] == ForceLoadAck(r) {
      assert FoundPending(a, events, c, n + 1, t, r);
    }
  }

  lemma CallRests(a: Atomic, events: seq<Event>, i: nat, c: nat, n: nat, t: nat, r: u64)
    requires c < n < |events| && CallAt(a, events, i, c, n, t, r) && events[n] != Advance(t)
    ensures CallAt(a, events, i, c, n + 1, t, r)
  {
    var s := Run(a, events[..n]);
    RunOneMore(a, events, n);
    FoundLostNext(a, events, i, c, n, t, r);
    ThreadsGrow(a, s, events[n]);
    ThreadElsewhere(a, s, events[n], t);
    if s.threads[t] == ForceLoadAck(r) {
      PendingStaysFound(a, events, c, n, t, r);
    }
  }

  lemma PendingStaysFound(a: Atomic, events: seq<Event>, c: nat, n: nat, t: nat, r: u64)
    requires n < |events| && FoundPending(a, events, c, n, t, r)
    ensures FoundPending(a, events, c, n + 1, t, r)
  {
  }

  lemma {:induction false} CallTracked(a: Atomic, events: seq<Event>, i: nat, c: nat, n: nat, r: u64)
    requires i < c < n <= |events| && Run(a, events[..i + 1]).acknowledged == r
    requires events[c] == Call(ForceLoadPending(r))
    ensures CallAt(a, events, i, c, n, |Run(a, events[..c]).threads|, r)
  {
    var t := |Run(a, events[..c]).threads|;
    if n == c + 1 {
      CallStarts(a, events, c, r);
    } else {
      CallTracked(a, events, i, c, n - 1, r);
      if events[n - 1] == Advance(t) {
        CallMoves(a, events, i, c, n - 1, t, r);
      } else {
        CallRests(a, events, i, c, n - 1, t, r);
      }
    }
  }

  /** A call made after event `i` acknowledged its id returns true exactly when its first load
      finds the id pending and, by the load that follows, the acknowledgement has been
      overwritten and not renewed, whatever is pending by then. */
  lemma ReturnsTrueExactly(a: Atomic, events: seq<Event>, i: nat, c: nat, r: u64)
    requires i < c < |events| && AcknowledgesAt(a, events, i, r) && events[c] == Call(ForceLoadPending(r))
    ensures ReturnedTrue(a, events, c, r) <==>
      FoundLost(a, events, i, c, |events|, |Run(a, events[..c]).threads|, r)
  {
    RunOneMore(a, events, i);
    CallTracked(a, events, i, c, |events|, r);
    assert events[..|events|] == events;
  }
}
