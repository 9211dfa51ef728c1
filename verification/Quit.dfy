/** The safe-quit handshake over three atomic counters, with each call one step. */
module Quit {
  import opened Machine

  datatype State = State(next: u64, pending: u64, acknowledged: u64)

  datatype Event =
    | Request
    | Acknowledge(id: u64)
    | Complete(id: u64)
    | Cancel(id: u64)

  function Init(): State {
    State(0, 0, 0)
  }

  /** The id a request returns: the previous counter value, saturating at the top. */
  function RequestId(s: State): u64 {
    Min(s.next + 1, U64_MAX)
  }

  /** Whether the call returns true; a request always succeeds. */
  predicate Succeeds(s: State, e: Event) {
    match e
    case Request => true
    case Acknowledge(id) => id != 0 && s.pending == id
    case Complete(id) => s.pending == id && s.acknowledged == id
    case Cancel(id) => s.pending == id
  }

  function Step(s: State, e: Event): State {
    if !Succeeds(s, e) then s
    else
      match e
      case Request => State((s.next + 1) % (U64_MAX + 1), RequestId(s), 0)
      case Acknowledge(id) => s.(acknowledged := id)
      case Complete(id) => s.(pending := 0, acknowledged := 0)
      case Cancel(id) => s.(pending := 0, acknowledged := 0)
  }

  predicate ShouldForceExit(s: State, id: u64) {
    s.pending == id && s.acknowledged != id
  }

  function Run(events: seq<Event>): State {
    if events == [] then Init() else Step(Run(events[..|events| - 1]), events[|events| - 1])
  }

  class QuitCoordinator {
    var nextRequestId: u64
    var pendingRequestId: u64
    var acknowledgedRequestId: u64

    ghost function View(): State
      reads this
    {
      State(nextRequestId, pendingRequestId, acknowledgedRequestId)
    }

    constructor ()
      ensures View() == Init()
    {
      nextRequestId, pendingRequestId, acknowledgedRequestId := 0, 0, 0;
    }

    method MakeRequest() returns (id: u64)
      modifies this
      ensures id == RequestId(old(View())) && View() == Step(old(View()), Request)
    {
      var previous := nextRequestId;
      nextRequestId := (previous + 1) % (U64_MAX + 1);
      id := Min(previous + 1, U64_MAX);
      acknowledgedRequestId := 0;
      pendingRequestId := id;
    }

    method AcknowledgeRequest(id: u64) returns (ok: bool)
      modifies this
      ensures ok <==> Succeeds(old(View()), Acknowledge(id))
      ensures View() == Step(old(View()), Acknowledge(id))
    {
      if id == 0 || pendingRequestId != id {
        return false;
      }
      acknowledgedRequestId := id;
      return true;
    }

    method CompleteRequest(id: u64) returns (ok: bool)
      modifies this
      ensures ok <==> Succeeds(old(View()), Complete(id))
      ensures View() == Step(old(View()), Complete(id))
    {
      if pendingRequestId != id || acknowledgedRequestId != id {
        return false;
      }
      pendingRequestId := 0;
      acknowledgedRequestId := 0;
      return true;
    }

    method CancelRequest(id: u64) returns (ok: bool)
      modifies this
      ensures ok <==> Succeeds(old(View()), Cancel(id))
      ensures View() == Step(old(View()), Cancel(id))
    {
      if pendingRequestId != id {
        return false;
      }
      pendingRequestId := 0;
      acknowledgedRequestId := 0;
      return true;
    }

    method ShouldForce(id: u64) returns (force: bool)
      ensures force <==> ShouldForceExit(View(), id)
    {
      force := pendingRequestId == id && acknowledgedRequestId != id;
    }
  }

  // ----- runs

  function Requests(events: seq<Event>): nat {
    if events == [] then 0
    else Requests(events[..|events| - 1]) + (if events[|events| - 1] == Request then 1 else 0)
  }

  predicate SucceedsAt(events: seq<Event>, i: nat)
    requires i < |events|
  {
    Succeeds(Run(events[..i]), events[i])
  }

  /** While ids have not run out, the counter counts the requests, and nothing is
      acknowledged but the pending request. */
  lemma {:induction false} CountersAgree(events: seq<Event>)
    requires Requests(events) <= U64_MAX
    ensures var s := Run(events);
      s.next == Requests(events) && s.pending <= s.next && (s.acknowledged == 0 || s.acknowledged == s.pending)
  {
    if events != [] {
      CountersAgree(events[..|events| - 1]);
    }
  }

  /** Nothing is ever acknowledged but the pending request, even after ids run out. */
  lemma {:induction false} AcknowledgedIsPending(events: seq<Event>)
    ensures Run(events).acknowledged == 0 || Run(events).acknowledged == Run(events).pending
  {
    if events != [] {
      AcknowledgedIsPending(events[..|events| - 1]);
    }
  }

  lemma {:induction false} RequestsGrow(events: seq<Event>, n: nat)
    requires n <= |events|
    ensures Requests(events[..n]) <= Requests(events)
  {
    if n < |events| {
      assert events[..|events| - 1][..n] == events[..n];
      RequestsGrow(events[..|events| - 1], n);
    } else {
      assert events[..n] == events;
    }
  }

  lemma RunOneMore(events: seq<Event>, n: nat)
    requires n < |events|
    ensures Run(events[..n + 1]) == Step(Run(events[..n]), events[n])
  {
    assert events[..n + 1][..n] == events[..n];
  }

  /** An id that is no longer pending, or is acknowledged while pending, stays so. */
  lemma {:induction false} SettledForever(events: seq<Event>, i: nat, n: nat, id: u64)
    requires i <= n <= |events| && Requests(events) <= U64_MAX
    requires id <= Run(events[..i]).next && (Run(events[..i]).pending == id ==> Run(events[..i]).acknowledged == id)
    ensures id <= Run(events[..n]).next
    ensures id != 0 && Run(events[..n]).pending == id ==> Run(events[..n]).acknowledged == id
    ensures Run(events[..i]).pending != id && id != 0 ==> Run(events[..n]).pending != id
  {
    if i < n {
      SettledForever(events, i, n - 1, id);
      RunOneMore(events, n - 1);
      RequestsGrow(events, n);
      CountersAgree(events[..n]);
      RequestsGrow(events, n - 1);
      CountersAgree(events[..n - 1]);
    }
  }

  /** Once a request is acknowledged, the forced exit is off for it in all later states. */
  lemma AcknowledgeDisablesForce(events: seq<Event>, i: nat, n: nat, id: u64)
    requires i < n <= |events| && Requests(events) <= U64_MAX
    requires events[i] == Acknowledge(id) && SucceedsAt(events, i)
    ensures !ShouldForceExit(Run(events[..n]), id)
  {
    RunOneMore(events, i);
    RequestsGrow(events, i + 1);
    CountersAgree(events[..i + 1]);
    SettledForever(events, i + 1, n, id);
  }

  /** Strictly between `j` and `i` nothing withdrew, finished or replaced the request. */
  predicate Undisturbed(events: seq<Event>, j: nat, i: nat)
    requires i <= |events|
  {
    forall k :: j < k < i ==>
      events[k] != Request && !(SucceedsAt(events, k) && (events[k].Cancel? || events[k].Complete?))
  }

  /** A non-zero id that is pending and acknowledged was acknowledged by a call after
      which there was no request, no successful cancel and no successful completion. */
  lemma {:induction false} LastAcknowledge(events: seq<Event>, n: nat, id: u64) returns (j: nat)
    requires n <= |events| && id != 0
    requires Run(events[..n]).pending == id && Run(events[..n]).acknowledged == id
    ensures j < n && events[j] == Acknowledge(id) && SucceedsAt(events, j) && Undisturbed(events, j, n)
  {
    RunOneMore(events, n - 1);
    if events[n - 1] == Acknowledge(id) && SucceedsAt(events, n - 1) {
      j := n - 1;
    } else {
      j := LastAcknowledge(events, n - 1, id);
    }
  }

  /** A successful completion follows an acknowledgement of the same request, with no
      cancel, completion or newer request in between. */
  lemma CompleteFollowsAcknowledge(events: seq<Event>, i: nat, id: u64)
    requires i < |events| && id != 0 && events[i] == Complete(id) && SucceedsAt(events, i)
    ensures exists j :: 0 <= j < i && events[j] == Acknowledge(id) && SucceedsAt(events, j) && Undisturbed(events, j, i)
  {
    var j := LastAcknowledge(events, i, id);
  }

  /** No request completes twice. */
  lemma CompletesAtMostOnce(events: seq<Event>, i: nat, j: nat, id: u64)
    requires i < j < |events| && id != 0 && Requests(events) <= U64_MAX
    requires events[i] == Complete(id) && SucceedsAt(events, i)
    ensures !(events[j] == Complete(id) && SucceedsAt(events, j))
  {
    RunOneMore(events, i);
    RequestsGrow(events, i);
    CountersAgree(events[..i]);
    SettledForever(events, i + 1, j, id);
  }

  /** Completing id zero succeeds exactly when no request is pending. */
  lemma CompleteZeroWhenIdle(events: seq<Event>)
    ensures Succeeds(Run(events), Complete(0)) <==> Run(events).pending == 0
  {
    AcknowledgedIsPending(events);
  }

  // ----- when ids run out

  function Repeat(n: nat): seq<Event> {
    seq(n, i => Request)
  }

  lemma {:induction false} AfterRepeat(n: nat)
    requires 0 < n <= U64_MAX
    ensures Run(Repeat(n)) == State(n, n, 0) && Requests(Repeat(n)) == n
  {
    assert Repeat(n)[..n - 1] == Repeat(n - 1) && Repeat(n)[n - 1] == Request;
    if n > 1 {
      AfterRepeat(n - 1);
    } else {
      assert Repeat(0) == [];
    }
  }

  /** After the last id has been used and completed, the next request is given it again. */
  function LastIdTwice(): seq<Event> {
    Repeat(U64_MAX) +
    [Acknowledge(U64_MAX), Complete(U64_MAX), Request, Acknowledge(U64_MAX), Complete(U64_MAX)]
  }

  lemma RequestsNext(events: seq<Event>, n: nat)
    requires n < |events|
    ensures Requests(events[..n + 1]) == Requests(events[..n]) + (if events[n] == Request then 1 else 0)
  {
    assert events[..n + 1][..n] == events[..n];
  }

  /** The run makes 2^64 requests, and in it the largest id completes twice. */
  lemma IdsRunOut()
    ensures var w := LastIdTwice();
      && Requests(w) == U64_MAX + 1
      && w[U64_MAX + 1] == w[U64_MAX + 4] == Complete(U64_MAX)
      && SucceedsAt(w, U64_MAX + 1) && SucceedsAt(w, U64_MAX + 4)
  {
    var w, n := LastIdTwice(), U64_MAX;
    AfterRepeat(n);
    assert w[..n] == Repeat(n);
    RunOneMore(w, n);
    RequestsNext(w, n);
    assert Run(w[..n + 1]) == State(n, n, n);
    RunOneMore(w, n + 1);
    RequestsNext(w, n + 1);
    assert Run(w[..n + 2]) == State(n, 0, 0);
    RunOneMore(w, n + 2);
    RequestsNext(w, n + 2);
    assert Run(w[..n + 3]) == State(0, n, 0);
    RunOneMore(w, n + 3);
    RequestsNext(w, n + 3);
    assert Run(w[..n + 4]) == State(0, n, n);
    RequestsNext(w, n + 4);
    assert w[..n + 5] == w;
  }

  ghost predicate AtMostOnce(events: seq<Event>) {
    forall i, j, id: u64 :: 0 <= i < j < |events| && id != 0 && events[i] == events[j] == Complete(id) ==>
      !SucceedsAt(events, i) || !SucceedsAt(events, j)
  }

  /** Runs of at most `n` requests complete every non-zero id at most once exactly when `n`
      is below 2^64. */
  lemma AtMostOnceExactlyWhileIdsLast(n: nat)
    ensures (forall events :: Requests(events) <= n ==> AtMostOnce(events)) <==> n <= U64_MAX
  {
    if n <= U64_MAX {
      forall events | Requests(events) <= n
        ensures AtMostOnce(events)
      {
        forall i, j, id: u64 | 0 <= i < j < |events| && id != 0 && events[i] == events[j] == Complete(id)
          && SucceedsAt(events, i)
          ensures !SucceedsAt(events, j)
        {
          CompletesAtMostOnce(events, i, j, id);
        }
      }
    } else {
      IdsRunOut();
      assert !AtMostOnce(LastIdTwice());
    }
  }

  /** After the largest id is acknowledged, the next request is given it again. */
  function LastIdForced(): seq<Event> {
    Repeat(U64_MAX) + [Acknowledge(U64_MAX), Request]
  }

  lemma LastIdForces()
    ensures var w := LastIdForced();
      && Requests(w) == U64_MAX + 1
      && w[U64_MAX] == Acknowledge(U64_MAX) && SucceedsAt(w, U64_MAX)
      && ShouldForceExit(Run(w), U64_MAX)
  {
    var w, n := LastIdForced(), U64_MAX;
    AfterRepeat(n);
    assert w[..n] == Repeat(n);
    RunOneMore(w, n);
    RequestsNext(w, n);
    RunOneMore(w, n + 1);
    RequestsNext(w, n + 1);
    assert w[..n + 2] == w;
  }

  /** Every successful acknowledgement keeps the forced exit off for its id ever after. */
  ghost predicate AcknowledgementsHold(events: seq<Event>) {
    forall i, n, id: u64 :: 0 <= i < n <= |events| && events[i] == Acknowledge(id) && SucceedsAt(events, i) ==>
      !ShouldForceExit(Run(events[..n]), id)
  }

  /** In all runs of at most `n` requests acknowledgements hold exactly when `n` is below 2^64. */
  lemma AcknowledgementsHoldExactlyWhileIdsLast(n: nat)
    ensures (forall events :: Requests(events) <= n ==> AcknowledgementsHold(events)) <==> n <= U64_MAX
  {
    if n <= U64_MAX {
      forall events | Requests(events) <= n
        ensures AcknowledgementsHold(events)
      {
        forall i, m, id: u64 | 0 <= i < m <= |events| && events[i] == Acknowledge(id) && SucceedsAt(events, i)
          ensures !ShouldForceExit(Run(events[..m]), id)
        {
          AcknowledgeDisablesForce(events, i, m, id);
        }
      }
    } else {
      var w := LastIdForced();
      LastIdForces();
      assert w[..|w|] == w;
      assert !AcknowledgementsHold(w);
    }
  }
}
