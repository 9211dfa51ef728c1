/** What the state of an install says about the events that led to it, on every run. */
module InstallHistory {
  import opened Wrappers
  import opened Installer

  /** The state before event `n`. */
  function Before(joined: bool, events: seq<Event>, n: nat): State
    requires n <= |events|
  {
    Run(joined, events[..n])
  }

  // ----- where an install comes from

  /** At event `n` install `j` comes from a token of this preview. */
  predicate TakenAt(joined: bool, events: seq<Event>, n: nat, j: nat, p: Preview, expired: bool)
    requires n < |events|
  {
    var s, e := Before(joined, events, n), events[n];
    e.TakeToken? && e.expired == expired && e.token in s.pending && s.pending[e.token] == p && |s.jobs| == j
  }

  /** At event `n` the preview is made and given this token. */
  predicate MintedAt(joined: bool, events: seq<Event>, n: nat, token: nat, p: Preview)
    requires n < |events|
  {
    events[n] == MakePreview(p) && Before(joined, events, n).tokens == token
  }

  predicate Minted(joined: bool, events: seq<Event>, n: nat, token: nat, p: Preview)
    requires n <= |events|
  {
    exists m :: 0 <= m < n && MintedAt(joined, events, m, token, p)
  }

  lemma PendingStep(joined: bool, s: State, e: Event, token: nat)
    requires token in Step(joined, s, e).pending
    ensures (token in s.pending && s.pending[token] == Step(joined, s, e).pending[token])
      || (token == s.tokens && e == MakePreview(Step(joined, s, e).pending[token]))
  {
  }

  lemma {:induction false} PendingIsMinted(joined: bool, events: seq<Event>, n: nat, token: nat)
    requires n <= |events| && token in Before(joined, events, n).pending
    ensures Minted(joined, events, n, token, Before(joined, events, n).pending[token])
  {
    if n > 0 {
      var s, p := Before(joined, events, n - 1), Before(joined, events, n).pending[token];
      RunOneMore(joined, events, n - 1);
      PendingStep(joined, s, events[n - 1], token);
      if token in s.pending && s.pending[token] == p {
        PendingIsMinted(joined, events, n - 1, token);
      } else {
        assert MintedAt(joined, events, n - 1, token, p);
      }
    }
  }

  /** Only taking a token makes a new install; nothing else changes where an old one comes from. */
  lemma OriginStep(joined: bool, s: State, e: Event, j: nat)
    requires j < |Step(joined, s, e).jobs|
    ensures var job := Step(joined, s, e).jobs[j];
      if j < |s.jobs| then job.token == s.jobs[j].token && job.preview == s.jobs[j].preview
      else j == |s.jobs| && e.TakeToken? && e.token in s.pending && job.token == e.token
           && job.preview == s.pending[e.token] && !job.cancel && job.installer == None && job.probe == None
           && job.phase == (if e.expired || !job.preview.usable then Ended(Rejected) else Taken)
  {
  }

  /** Rejected installs stay as they are. */
  lemma RejectedStep(joined: bool, s: State, e: Event, j: nat)
    requires j < |s.jobs| && s.jobs[j].phase == Ended(Rejected) && j !in s.writes
    ensures j < |Step(joined, s, e).jobs| && Step(joined, s, e).jobs[j].phase == Ended(Rejected)
    ensures Step(joined, s, e).jobs[j].installer == s.jobs[j].installer
    ensures Step(joined, s, e).jobs[j].probe == s.jobs[j].probe
    ensures j !in Step(joined, s, e).writes
  {
  }

  /** Some earlier event took an unexpired token of a usable preview to make install `j`. */
  predicate WellTaken(joined: bool, events: seq<Event>, n: nat, j: nat, p: Preview)
    requires n <= |events|
  {
    exists m :: 0 <= m < n && TakenAt(joined, events, m, j, p, false)
  }

  lemma {:induction false} NotRejectedIsWellTaken(joined: bool, events: seq<Event>, n: nat, j: nat)
    requires n <= |events| && j < |Before(joined, events, n).jobs|
    ensures var job := Before(joined, events, n).jobs[j];
      job.phase != Ended(Rejected) ==> job.preview.usable && WellTaken(joined, events, n, j, job.preview)
  {
    var job := Before(joined, events, n).jobs[j];
    var s, e := Before(joined, events, n - 1), events[n - 1];
    RunOneMore(joined, events, n - 1);
    OriginStep(joined, s, e, j);
    if job.phase != Ended(Rejected) {
      if j < |s.jobs| {
        StaysRejected(joined, s, e, j);
        NotRejectedIsWellTaken(joined, events, n - 1, j);
      } else {
        assert TakenAt(joined, events, n - 1, j, job.preview, false);
      }
    }
  }

  lemma StaysRejected(joined: bool, s: State, e: Event, j: nat)
    requires j < |s.jobs| && j < |Step(joined, s, e).jobs|
    ensures s.jobs[j].phase == Ended(Rejected) ==> Step(joined, s, e).jobs[j].phase == Ended(Rejected)
  {
  }

  /** On every run, an install in any phase but rejected comes from an unexpired token of a
      usable preview that was made before. */
  lemma InstallsAreConfirmed(joined: bool, events: seq<Event>, j: nat)
    requires j < |Run(joined, events).jobs| && Run(joined, events).jobs[j].phase != Ended(Rejected)
    ensures var p := Run(joined, events).jobs[j].preview;
      && p.usable
      && exists m, n :: 0 <= m < n < |events| && TakenAt(joined, events, n, j, p, false)
                        && events[n].TakeToken? && MintedAt(joined, events, m, events[n].token, p)
  {
    assert events[..|events|] == events;
    NotRejectedIsWellTaken(joined, events, |events|, j);
    var p := Run(joined, events).jobs[j].preview;
    var n :| 0 <= n < |events| && TakenAt(joined, events, n, j, p, false);
    PendingIsMinted(joined, events, n, events[n].token);
    var m :| 0 <= m < n && MintedAt(joined, events, m, events[n].token, p);
  }

  lemma {:induction false} RejectedAlong(joined: bool, events: seq<Event>, m: nat, n: nat, j: nat)
    requires m <= n <= |events| && j < |Before(joined, events, m).jobs|
    requires Before(joined, events, m).jobs[j].phase == Ended(Rejected) && j !in Before(joined, events, m).writes
    ensures j < |Before(joined, events, n).jobs| && Before(joined, events, n).jobs[j].phase == Ended(Rejected)
    ensures Before(joined, events, n).jobs[j].installer == Before(joined, events, m).jobs[j].installer
    ensures Before(joined, events, n).jobs[j].probe == Before(joined, events, m).jobs[j].probe
    ensures j !in Before(joined, events, n).writes
  {
    if m < n {
      RejectedAlong(joined, events, m, n - 1, j);
      RejectedStep(joined, Before(joined, events, n - 1), events[n - 1], j);
      RunOneMore(joined, events, n - 1);
    }
  }

  /** Taking a token starts an install exactly when it has not expired and its preview is
      usable. Otherwise the install is rejected for good: it never runs its installer or its
      probe, writes nothing and is never Ready. */
  lemma BadTokensAreRejected(joined: bool, events: seq<Event>, n: nat, j: nat, p: Preview, expired: bool)
    requires n < |events| && TakenAt(joined, events, n, j, p, expired)
    ensures j < |Before(joined, events, n + 1).jobs|
    ensures Before(joined, events, n + 1).jobs[j].phase == Taken <==> !expired && p.usable
    ensures expired || !p.usable ==>
      && j < |Run(joined, events).jobs|
      && Run(joined, events).jobs[j].phase == Ended(Rejected)
      && Run(joined, events).jobs[j].installer == None && Run(joined, events).jobs[j].probe == None
      && j !in Run(joined, events).writes
  {
    var s := Before(joined, events, n);
    RunOneMore(joined, events, n);
    OriginStep(joined, s, events[n], j);
    if expired || !p.usable {
      RunKeepsInv(joined, events[..n]);
      RejectedAlong(joined, events, n + 1, |events|, j);
      assert events[..|events|] == events;
    }
  }

  // ----- what an install has seen

  predicate RanInstaller(joined: bool, events: seq<Event>, n: nat, j: nat, out: Outcome)
    requires n <= |events|
  {
    exists k :: 0 <= k < n && events[k] == RunInstaller(j, Some(out)) && At(Before(joined, events, k), j, Installing)
  }

  predicate RanProbe(joined: bool, events: seq<Event>, n: nat, j: nat, out: Outcome)
    requires n <= |events|
  {
    exists k :: 0 <= k < n && events[k] == RunProbe(j, Some(out)) && At(Before(joined, events, k), j, Probing)
  }

  /** Its recipe was cancelled while the running table held its flag. */
  predicate WasCancelled(joined: bool, events: seq<Event>, n: nat, j: nat)
    requires n <= |events|
  {
    exists k :: 0 <= k < n && CancelsAt(joined, events, k, j)
  }

  predicate CancelsAt(joined: bool, events: seq<Event>, k: nat, j: nat)
    requires k < |events|
  {
    var s := Before(joined, events, k);
    events[k].CancelRecipe? && events[k].recipe in s.running && s.running[events[k].recipe] == j && j < |s.jobs|
  }

  predicate LeftWith(joined: bool, events: seq<Event>, n: nat, j: nat, r: Installer.Result)
    requires n <= |events|
  {
    exists k :: 0 <= k < n && events[k] == LeaveRunning(j) && At(Before(joined, events, k), j, Leaving(r))
  }

  /** The running table admitted it, being without its recipe. */
  predicate WasAdmitted(joined: bool, events: seq<Event>, n: nat, j: nat)
    requires n <= |events|
  {
    exists k :: 0 <= k < n && AdmitsAt(joined, events, k, j)
  }

  predicate AdmitsAt(joined: bool, events: seq<Event>, k: nat, j: nat)
    requires k < |events|
  {
    var s := Before(joined, events, k);
    events[k] == CheckRunning(j) && At(s, j, Taken) && s.jobs[j].preview.recipe !in s.running
  }

  predicate BeyondTaken(phase: Phase) {
    phase != Taken && phase != Ended(Rejected)
  }

  ghost predicate JobMeans(joined: bool, events: seq<Event>, n: nat, j: nat, job: Job)
    requires n <= |events|
  {
    && (forall out :: job.installer == Some(out) <==> RanInstaller(joined, events, n, j, out))
    && (forall out :: job.probe == Some(out) <==> RanProbe(joined, events, n, j, out))
    && (job.cancel <==> WasCancelled(joined, events, n, j))
    && (forall r :: r != Rejected ==> (job.phase == Ended(r) <==> LeftWith(joined, events, n, j, r)))
    && (BeyondTaken(job.phase) <==> WasAdmitted(joined, events, n, j))
  }

  lemma HistoryNext(joined: bool, events: seq<Event>, n: nat, j: nat)
    requires n < |events|
    ensures forall out :: RanInstaller(joined, events, n + 1, j, out) <==>
      RanInstaller(joined, events, n, j, out)
      || (events[n] == RunInstaller(j, Some(out)) && At(Before(joined, events, n), j, Installing))
    ensures forall out :: RanProbe(joined, events, n + 1, j, out) <==>
      RanProbe(joined, events, n, j, out)
      || (events[n] == RunProbe(j, Some(out)) && At(Before(joined, events, n), j, Probing))
    ensures WasCancelled(joined, events, n + 1, j) <==>
      WasCancelled(joined, events, n, j) || CancelsAt(joined, events, n, j)
    ensures forall r :: LeftWith(joined, events, n + 1, j, r) <==>
      LeftWith(joined, events, n, j, r)
      || (events[n] == LeaveRunning(j) && At(Before(joined, events, n), j, Leaving(r)))
    ensures WasAdmitted(joined, events, n + 1, j) <==>
      WasAdmitted(joined, events, n, j) || AdmitsAt(joined, events, n, j)
  {
  }

  /** The order of phases, as far as a job's history needs it. */
  predicate Unrun(job: Job) {
    && (job.phase == Taken || job.phase == Admitted || job.phase == Installing ==>
         job.installer == None && job.probe == None)
    && (job.phase.InstallerDone? || job.phase == Probing ==> job.probe == None)
  }

  lemma UnrunStep(joined: bool, s: State, e: Event, j: nat)
    requires j < |s.jobs| && Unrun(s.jobs[j]) && j < |Step(joined, s, e).jobs|
    ensures Unrun(Step(joined, s, e).jobs[j])
  {
  }

  lemma InstallerStep(joined: bool, s: State, e: Event, j: nat, out: Outcome)
    requires j < |s.jobs| && Unrun(s.jobs[j]) && j < |Step(joined, s, e).jobs|
    ensures Step(joined, s, e).jobs[j].installer == Some(out) <==>
      s.jobs[j].installer == Some(out) || (e == RunInstaller(j, Some(out)) && At(s, j, Installing))
  {
  }

  lemma ProbeStep(joined: bool, s: State, e: Event, j: nat, out: Outcome)
    requires j < |s.jobs| && Unrun(s.jobs[j]) && j < |Step(joined, s, e).jobs|
    ensures Step(joined, s, e).jobs[j].probe == Some(out) <==>
      s.jobs[j].probe == Some(out) || (e == RunProbe(j, Some(out)) && At(s, j, Probing))
  {
  }

  lemma CancelStep(joined: bool, s: State, e: Event, j: nat)
    requires j < |s.jobs| && j < |Step(joined, s, e).jobs|
    ensures Step(joined, s, e).jobs[j].cancel <==>
      s.jobs[j].cancel || (e.CancelRecipe? && e.recipe in s.running && s.running[e.recipe] == j)
  {
  }

  lemma EndStep(joined: bool, s: State, e: Event, j: nat, r: Installer.Result)
    requires j < |s.jobs| && j < |Step(joined, s, e).jobs| && r != Rejected
    ensures Step(joined, s, e).jobs[j].phase == Ended(r) <==>
      s.jobs[j].phase == Ended(r) || (e == LeaveRunning(j) && At(s, j, Leaving(r)))
  {
  }

  lemma AdmitStep(joined: bool, s: State, e: Event, j: nat)
    requires j < |s.jobs| && j < |Step(joined, s, e).jobs| && LeavingOk(s.jobs[j])
    ensures BeyondTaken(Step(joined, s, e).jobs[j].phase) <==>
      BeyondTaken(s.jobs[j].phase)
      || (e == CheckRunning(j) && At(s, j, Taken) && s.jobs[j].preview.recipe !in s.running)
  {
  }

  /** An admitted install never ends as rejected. */
  predicate LeavingOk(job: Job) {
    job.phase != Leaving(Rejected)
  }

  lemma LeavingOkStep(joined: bool, s: State, e: Event, j: nat)
    requires j < |s.jobs| && LeavingOk(s.jobs[j]) && j < |Step(joined, s, e).jobs|
    ensures LeavingOk(Step(joined, s, e).jobs[j])
  {
  }

  predicate Sound(job: Job) {
    Unrun(job) && LeavingOk(job)
  }

  lemma MeaningStep(joined: bool, events: seq<Event>, n: nat, j: nat)
    requires n < |events| && j < |Before(joined, events, n).jobs| && Sound(Before(joined, events, n).jobs[j])
    requires JobMeans(joined, events, n, j, Before(joined, events, n).jobs[j])
    requires j < |Step(joined, Before(joined, events, n), events[n]).jobs|
    ensures JobMeans(joined, events, n + 1, j, Step(joined, Before(joined, events, n), events[n]).jobs[j])
  {
    var s, e := Before(joined, events, n), events[n];
    var job := Step(joined, s, e).jobs[j];
    HistoryNext(joined, events, n, j);
    forall out
      ensures job.installer == Some(out) <==> RanInstaller(joined, events, n + 1, j, out)
      ensures job.probe == Some(out) <==> RanProbe(joined, events, n + 1, j, out)
    {
      InstallerStep(joined, s, e, j, out);
      ProbeStep(joined, s, e, j, out);
    }
    forall r | r != Rejected
      ensures job.phase == Ended(r) <==> LeftWith(joined, events, n + 1, j, r)
    {
      EndStep(joined, s, e, j, r);
    }
    CancelStep(joined, s, e, j);
    AdmitStep(joined, s, e, j);
  }

  lemma NothingYet(joined: bool, events: seq<Event>, n: nat, j: nat)
    requires n <= |events| && |Before(joined, events, n).jobs| <= j
    ensures forall p :: JobMeans(joined, events, n, j, Job(0, p, Taken, false, None, None))
  {
    forall k | 0 <= k < n
      ensures |Before(joined, events, k).jobs| <= j
    {
      JobsGrow(joined, events, k, n);
    }
  }

  lemma {:induction false} JobsGrow(joined: bool, events: seq<Event>, m: nat, n: nat)
    requires m <= n <= |events|
    ensures |Before(joined, events, m).jobs| <= |Before(joined, events, n).jobs|
  {
    if m < n {
      JobsGrow(joined, events, m, n - 1);
      RunOneMore(joined, events, n - 1);
      OneMoreJob(joined, Before(joined, events, n - 1), events[n - 1]);
    }
  }

  lemma OneMoreJob(joined: bool, s: State, e: Event)
    ensures |s.jobs| <= |Step(joined, s, e).jobs|
  {
  }

  lemma NewJobMeans(joined: bool, events: seq<Event>, n: nat, j: nat)
    requires n < |events| && |Before(joined, events, n).jobs| <= j
    requires j < |Step(joined, Before(joined, events, n), events[n]).jobs|
    ensures var job := Step(joined, Before(joined, events, n), events[n]).jobs[j];
      Sound(job) && JobMeans(joined, events, n + 1, j, job)
  {
    var s, e := Before(joined, events, n), events[n];
    OriginStep(joined, s, e, j);
    NothingYet(joined, events, n, j);
    HistoryNext(joined, events, n, j);
    assert JobMeans(joined, events, n, j, Job(0, s.pending[e.token], Taken, false, None, None));
  }

  lemma {:induction false} JobAlwaysMeans(joined: bool, events: seq<Event>, n: nat, j: nat)
    requires n <= |events| && j < |Before(joined, events, n).jobs|
    ensures Sound(Before(joined, events, n).jobs[j])
    ensures JobMeans(joined, events, n, j, Before(joined, events, n).jobs[j])
  {
    if n > 0 {
      var s, e := Before(joined, events, n - 1), events[n - 1];
      RunOneMore(joined, events, n - 1);
      if j < |s.jobs| {
        JobAlwaysMeans(joined, events, n - 1, j);
        UnrunStep(joined, s, e, j);
        LeavingOkStep(joined, s, e, j);
        MeaningStep(joined, events, n - 1, j);
      } else {
        NewJobMeans(joined, events, n - 1, j);
      }
    }
  }

  /** On every run: an install has seen an outcome of its installer, or of its probe, exactly
      when that command ran in its turn; its flag is set exactly when its recipe was cancelled
      while the table held it; it has got past the running check exactly when its recipe was not
      running then; and it has ended with a result exactly when it left with that result. */
  lemma InstallMeans(joined: bool, events: seq<Event>, j: nat, out: Outcome, r: Installer.Result)
    requires j < |Run(joined, events).jobs| && r != Rejected
    ensures var job := Run(joined, events).jobs[j];
      && (job.installer == Some(out) <==> RanInstaller(joined, events, |events|, j, out))
      && (job.probe == Some(out) <==> RanProbe(joined, events, |events|, j, out))
      && (job.cancel <==> WasCancelled(joined, events, |events|, j))
      && (BeyondTaken(job.phase) <==> WasAdmitted(joined, events, |events|, j))
      && (job.phase == Ended(r) <==> LeftWith(joined, events, |events|, j, r))
  {
    assert events[..|events|] == events;
    JobAlwaysMeans(joined, events, |events|, j);
  }
}
