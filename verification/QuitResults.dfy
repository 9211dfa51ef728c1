/** What the answers of the quit handshake mean, over all runs: with each call one step, and
    for cancelling also with each atomic access one step. */
module QuitResults {
  import opened Machine
  import Quit
  import I = QuitInterleaved

  // ----- each call one step

  /** Some request before event `n` was given this id, and since then there was no other
      request, no successful completion and no successful cancel. */
  predicate Open(events: seq<Quit.Event>, n: nat, id: u64)
    requires n <= |events|
  {
    exists m :: 0 <= m < n && RequestsAt(events, m, id) && Quit.Undisturbed(events, m, n)
  }

  predicate RequestsAt(events: seq<Quit.Event>, m: nat, id: u64)
    requires m < |events|
  {
    events[m] == Quit.Request && Quit.RequestId(Quit.Run(events[..m])) == id
  }

  /** Some acknowledgement before event `n` succeeded for this id, with none of those since. */
  predicate Acknowledged(events: seq<Quit.Event>, n: nat, id: u64)
    requires n <= |events|
  {
    exists m :: 0 <= m < n && AcknowledgesAt(events, m, id) && Quit.Undisturbed(events, m, n)
  }

  predicate AcknowledgesAt(events: seq<Quit.Event>, m: nat, id: u64)
    requires m < |events|
  {
    events[m] == Quit.Acknowledge(id) && Quit.SucceedsAt(events, m)
  }

  /** Event `n` makes a request or ends the pending one. */
  predicate Disturbs(events: seq<Quit.Event>, n: nat)
    requires n < |events|
  {
    events[n] == Quit.Request || (Quit.SucceedsAt(events, n) && (events[n].Cancel? || events[n].Complete?))
  }

  lemma OpenNext(events: seq<Quit.Event>, n: nat, id: u64)
    requires n < |events|
    ensures Open(events, n + 1, id) <==> RequestsAt(events, n, id) || (Open(events, n, id) && !Disturbs(events, n))
  {
    if Open(events, n + 1, id) && !RequestsAt(events, n, id) {
      var m :| 0 <= m < n + 1 && RequestsAt(events, m, id) && Quit.Undisturbed(events, m, n + 1);
      assert Quit.Undisturbed(events, m, n);
    }
    if Open(events, n, id) && !Disturbs(events, n) {
      var m :| 0 <= m < n && RequestsAt(events, m, id) && Quit.Undisturbed(events, m, n);
      assert Quit.Undisturbed(events, m, n + 1);
    }
    if RequestsAt(events, n, id) {
      assert Quit.Undisturbed(events, n, n + 1);
    }
  }

  lemma AcknowledgedNext(events: seq<Quit.Event>, n: nat, id: u64)
    requires n < |events|
    ensures Acknowledged(events, n + 1, id) <==>
      AcknowledgesAt(events, n, id) || (Acknowledged(events, n, id) && !Disturbs(events, n))
  {
    if Acknowledged(events, n + 1, id) && !AcknowledgesAt(events, n, id) {
      var m :| 0 <= m < n + 1 && AcknowledgesAt(events, m, id) && Quit.Undisturbed(events, m, n + 1);
      assert Quit.Undisturbed(events, m, n);
    }
    if Acknowledged(events, n, id) && !Disturbs(events, n) {
      var m :| 0 <= m < n && AcknowledgesAt(events, m, id) && Quit.Undisturbed(events, m, n);
      assert Quit.Undisturbed(events, m, n + 1);
    }
    if AcknowledgesAt(events, n, id) {
      assert Quit.Undisturbed(events, n, n + 1);
    }
  }

  lemma CountersMove(s: Quit.State, e: Quit.Event, id: u64)
    requires id != 0 && (s.acknowledged == 0 || s.acknowledged == s.pending)
    ensures var t := Quit.Step(s, e);
      var disturbs := e == Quit.Request || (Quit.Succeeds(s, e) && (e.Cancel? || e.Complete?));
      && (t.acknowledged == 0 || t.acknowledged == t.pending)
      && (t.pending == id <==> (e == Quit.Request && Quit.RequestId(s) == id) || (s.pending == id && !disturbs))
      && (t.acknowledged == id <==>
            (e == Quit.Acknowledge(id) && Quit.Succeeds(s, e)) || (s.acknowledged == id && !disturbs))
  {
  }

  lemma {:induction false} CountersMean(events: seq<Quit.Event>, n: nat, id: u64)
    requires n <= |events| && id != 0
    ensures var s := Quit.Run(events[..n]);
      && (s.acknowledged == 0 || s.acknowledged == s.pending)
      && (s.pending == id <==> Open(events, n, id))
      && (s.acknowledged == id <==> Acknowledged(events, n, id))
  {
    if n > 0 {
      CountersMean(events, n - 1, id);
      Quit.RunOneMore(events, n - 1);
      CountersMove(Quit.Run(events[..n - 1]), events[n - 1], id);
      OpenNext(events, n - 1, id);
      AcknowledgedNext(events, n - 1, id);
    }
  }

  /** For an id other than zero: acknowledging and cancelling answer true exactly while the
      request with that id is open, completing exactly while it is open and acknowledged, and
      the exit is forced exactly while it is open and not acknowledged. */
  lemma AnswersMean(events: seq<Quit.Event>, n: nat, id: u64)
    requires n < |events| && id != 0
    ensures events[n] == Quit.Acknowledge(id) ==> (Quit.SucceedsAt(events, n) <==> Open(events, n, id))
    ensures events[n] == Quit.Cancel(id) ==> (Quit.SucceedsAt(events, n) <==> Open(events, n, id))
    ensures events[n] == Quit.Complete(id) ==>
      (Quit.SucceedsAt(events, n) <==> Open(events, n, id) && Acknowledged(events, n, id))
    ensures Quit.ShouldForceExit(Quit.Run(events[..n]), id) <==> Open(events, n, id) && !Acknowledged(events, n, id)
  {
    CountersMean(events, n, id);
  }

  // ----- each access one step

  /** The load of this cancel finds its id pending. */
  predicate FindsPending(a: I.Atomic, events: seq<I.Event>, k: nat, t: nat, id: u64)
    requires k < |events|
  {
    var s := I.Run(a, events[..k]);
    events[k] == I.Advance(t) && t < |s.threads| && s.threads[t] == I.CancelLoad(id) && s.pending == id
  }

  predicate EverFinds(a: I.Atomic, events: seq<I.Event>, n: nat, t: nat, id: u64)
    requires n <= |events|
  {
    exists k :: 0 <= k < n && FindsPending(a, events, k, t, id)
  }

  lemma EverFindsNext(a: I.Atomic, events: seq<I.Event>, n: nat, t: nat, id: u64)
    requires n < |events|
    ensures EverFinds(a, events, n + 1, t, id) <==> EverFinds(a, events, n, t, id) || FindsPending(a, events, n, t, id)
  {
  }

  /** Past its first access, a cancel goes on exactly when it found its id pending. */
  predicate CancelOk(thread: I.Thread, id: u64, found: bool) {
    && (thread == I.CancelLoad(id) || thread == I.Cancelled(id, false) ==> !found)
    && (thread == I.CancelClearPending(id) || thread == I.CancelClearAck(id) || thread == I.Cancelled(id, true) ==>
          found)
  }

  lemma CancelStep(a: I.Atomic, s: I.State, e: I.Event, t: nat, id: u64, found: bool)
    requires t < |s.threads| && CancelOk(s.threads[t], id, found)
    ensures t < |I.Step(a, s, e).threads|
    ensures CancelOk(I.Step(a, s, e).threads[t], id,
                     found || (e == I.Advance(t) && s.threads[t] == I.CancelLoad(id) && s.pending == id))
  {
    I.ThreadsGrow(a, s, e);
    if e != I.Advance(t) {
      I.ThreadElsewhere(a, s, e, t);
    }
  }

  lemma {:induction false} CancelTrail(a: I.Atomic, events: seq<I.Event>, n: nat, t: nat, id: u64)
    requires n <= |events|
    ensures var s := I.Run(a, events[..n]);
      var found := EverFinds(a, events, n, t, id);
      if t < |s.threads| then CancelOk(s.threads[t], id, found) else !found
  {
    if n > 0 {
      CancelTrail(a, events, n - 1, t, id);
      I.RunOneMore(a, events, n - 1);
      EverFindsNext(a, events, n - 1, t, id);
      var s := I.Run(a, events[..n - 1]);
      if t < |s.threads| {
        CancelStep(a, s, events[n - 1], t, id, EverFinds(a, events, n - 1, t, id));
      }
    }
  }

  /** On every interleaving a finished cancel answered true exactly when its load found its id
      pending. */
  lemma CancelTrueExactly(a: I.Atomic, events: seq<I.Event>, t: nat, id: u64, ok: bool)
    requires t < |I.Run(a, events).threads| && I.Run(a, events).threads[t] == I.Cancelled(id, ok)
    ensures ok <==> exists k :: 0 <= k < |events| && FindsPending(a, events, k, t, id)
  {
    assert events[..|events|] == events;
    CancelTrail(a, events, |events|, t, id);
  }

  // ----- a call stays the call it is

  datatype Kind = Requesting | Acknowledging | Completing | Cancelling | Forcing

  function KindOf(t: I.Thread): Kind {
    if t.RequestAdd? || t.RequestClearAck? || t.RequestPublish? || t.Requested? then Requesting
    else if t.AckLoad? || t.AckStore? || t.Acked? then Acknowledging
    else if t.CancelLoad? || t.CancelClearPending? || t.CancelClearAck? || t.Cancelled? then Cancelling
    else if t.ForceLoadPending? || t.ForceLoadAck? || t.Forced? then Forcing
    else Completing
  }

  lemma CompletionKeepsKind(a: I.Atomic, s: I.State, t: nat)
    requires t < |s.threads| && KindOf(s.threads[t]) == Completing
    ensures t < |I.Access(a, s, t).threads| && KindOf(I.Access(a, s, t).threads[t]) == Completing
  {
  }

  lemma RequestKeepsKind(a: I.Atomic, s: I.State, t: nat)
    requires t < |s.threads| && (KindOf(s.threads[t]) == Requesting || KindOf(s.threads[t]) == Acknowledging)
    ensures t < |I.Access(a, s, t).threads| && KindOf(I.Access(a, s, t).threads[t]) == KindOf(s.threads[t])
  {
  }

  lemma AccessKeepsKind(a: I.Atomic, s: I.State, t: nat)
    requires t < |s.threads|
    ensures t < |I.Access(a, s, t).threads| && KindOf(I.Access(a, s, t).threads[t]) == KindOf(s.threads[t])
  {
    match KindOf(s.threads[t])
    case Completing => CompletionKeepsKind(a, s, t);
    case Requesting => RequestKeepsKind(a, s, t);
    case Acknowledging => RequestKeepsKind(a, s, t);
    case Cancelling =>
    case Forcing =>
  }

  lemma AccessKeepsId(a: I.Atomic, s: I.State, t: nat)
    requires t < |s.threads| && s.threads[t] != I.RequestAdd
    ensures t < |I.Access(a, s, t).threads|
    ensures I.Access(a, s, t).threads[t] != I.RequestAdd && I.Access(a, s, t).threads[t].id == s.threads[t].id
  {
  }

  lemma StepKeepsKind(a: I.Atomic, s: I.State, e: I.Event, t: nat)
    requires t < |s.threads|
    ensures t < |I.Step(a, s, e).threads|
    ensures var now := I.Step(a, s, e).threads[t];
      && KindOf(now) == KindOf(s.threads[t])
      && (s.threads[t] != I.RequestAdd ==> now != I.RequestAdd && now.id == s.threads[t].id)
  {
    I.ThreadsGrow(a, s, e);
    if e == I.Advance(t) {
      AccessKeepsKind(a, s, t);
      if s.threads[t] != I.RequestAdd {
        AccessKeepsId(a, s, t);
      }
    } else {
      I.ThreadElsewhere(a, s, e, t);
    }
  }

  /** On every interleaving a call keeps its kind and the id it was made with. */
  lemma {:induction false} CallsKeepKind(a: I.Atomic, events: seq<I.Event>, n: nat, t: nat)
    requires n <= |events| && t < |I.Run(a, events[..n]).threads|
    ensures t < |I.Run(a, events).threads|
    ensures var before, after := I.Run(a, events[..n]).threads[t], I.Run(a, events).threads[t];
      && KindOf(after) == KindOf(before)
      && (before != I.RequestAdd ==> after != I.RequestAdd && after.id == before.id)
    decreases |events| - n
  {
    if n == |events| {
      assert events[..n] == events;
    } else {
      I.RunOneMore(a, events, n);
      StepKeepsKind(a, I.Run(a, events[..n]), events[n], t);
      CallsKeepKind(a, events, n + 1, t);
    }
  }
}
