/**
 What the server can rely on when it reads the supervisor's report, how long a probe is
 given, and how fast a failing server is launched again.
 */
module SupervisorReports {
  import opened Wrappers
  import opened Layout
  import opened Supervisor

  // ------------------------------------------------------ readings of a history

  function LastLaunch(trace: seq<Mark>): Option<string> {
    if trace == [] then None
    else if trace[|trace| - 1].Launched? then Some(trace[|trace| - 1].version)
    else LastLaunch(trace[..|trace| - 1])
  }

  function LastRequest(trace: seq<Mark>): Option<Pending> {
    if trace == [] then None
    else if trace[|trace| - 1].Applying? then Some(trace[|trace| - 1].request)
    else LastRequest(trace[..|trace| - 1])
  }

  /** The version that was running when the last request was made. */
  function RunningAtRequest(trace: seq<Mark>): Option<string> {
    if trace == [] then None
    else if trace[|trace| - 1].Applying? then LastLaunch(trace[..|trace| - 1])
    else RunningAtRequest(trace[..|trace| - 1])
  }

  function LastReport(first: Option<Report>, trace: seq<Mark>): Option<Report> {
    if trace == [] then first
    else if trace[|trace| - 1].Reported? then Some(trace[|trace| - 1].report)
    else LastReport(first, trace[..|trace| - 1])
  }

  /** A report is about the last request, names the version it came from, and is positive right after a commit. */
  predicate AccurateAfter(trace: seq<Mark>, report: Report) {
    && LastRequest(trace).Some? && report.version == LastRequest(trace).value.version
    && report.previous == RunningAtRequest(trace)
    && (report.ok <==> trace != [] && trace[|trace| - 1].Committed?
                       && report.version == Some(trace[|trace| - 1].version))
  }

  predicate ReportsAreAccurate(trace: seq<Mark>) {
    trace == []
    || var init, last := trace[..|trace| - 1], trace[|trace| - 1];
       ReportsAreAccurate(init) && (last.Reported? ==> AccurateAfter(init, last.report))
  }

  lemma More(first: Option<Report>, trace: seq<Mark>, m: Mark)
    ensures var t := trace + [m];
            && LastLaunch(t) == (if m.Launched? then Some(m.version) else LastLaunch(trace))
            && LastRequest(t) == (if m.Applying? then Some(m.request) else LastRequest(trace))
            && RunningAtRequest(t) == (if m.Applying? then LastLaunch(trace) else RunningAtRequest(trace))
            && LastReport(first, t) == (if m.Reported? then Some(m.report) else LastReport(first, trace))
            && (ReportsAreAccurate(t) <==>
                  ReportsAreAccurate(trace) && (m.Reported? ==> AccurateAfter(trace, m.report)))
  {
    assert (trace + [m])[..|trace|] == trace;
  }

  // ------------------------------------------------------ one turn at a time

  /** A version under probe is the one last requested, with the request's own time limit. */
  predicate ProbeIsRequested(s: State) {
    if s.probing then
      LastRequest(s.trace) == Some(Pending(Some(s.target), s.probeTimeout)) && s.previous == RunningAtRequest(s.trace)
    else s.probeTimeout == None
  }

  predicate Informs(first: Option<Report>, s: State) {
    ProbeIsRequested(s) && ReportsAreAccurate(s.trace) && s.disk.result == LastReport(first, s.trace)
  }

  lemma ExitInforms(c: Config, first: Option<Report>, s: State, a: Attempt)
    requires Informs(first, s) && !s.probing && LastLaunch(s.trace) == Some(s.target)
    ensures Informs(first, Exit(c, s, a))
  {
    hide LastLaunch, LastRequest, RunningAtRequest, LastReport, ReportsAreAccurate, IsSafeVersion, Reason;
    var s1 := s.(disk := WithFiles(s.disk, a.late));
    if s1.disk.pending.Some? {
      var request := s1.disk.pending.value;
      var t1 := s.trace + [Applying(request)];
      More(first, s.trace, Applying(request));
      if !Acceptable(s1.disk, request) {
        var report := Report(false, request.version, Some(s.target), Reason(s1.disk, request));
        assert t1[|t1| - 1] == Applying(request) && AccurateAfter(t1, report);
        More(first, t1, Reported(report));
      }
    }
  }

  lemma SettledInforms(first: Option<Report>, s: State, w: Swallowed)
    requires Informs(first, s) && s.probing
    ensures Informs(first, Settled(s, w))
    ensures LastLaunch(Settled(s, w).trace) == LastLaunch(s.trace)
    ensures var t2 := s.trace + [Healthy(s.target)] + [Committed(s.target)];
            ReportsAreAccurate(t2) && LastRequest(t2) == LastRequest(s.trace)
            && RunningAtRequest(t2) == RunningAtRequest(s.trace) && LastReport(first, t2) == LastReport(first, s.trace)
  {
    hide LastLaunch, LastRequest, RunningAtRequest, LastReport, ReportsAreAccurate;
    var report := Report(true, Some(s.target), s.previous, "");
    var t1 := s.trace + [Healthy(s.target)];
    var t2 := t1 + [Committed(s.target)];
    More(first, s.trace, Healthy(s.target));
    More(first, t1, Committed(s.target));
    assert t2[|t2| - 1] == Committed(s.target) && AccurateAfter(t2, report);
    More(first, t2, Reported(report));
  }

  lemma CommitInforms(c: Config, first: Option<Report>, s: State, a: Attempt)
    requires Informs(first, s) && s.probing && LastLaunch(s.trace) == Some(s.target)
    ensures Informs(first, Commit(c, s, a))
  {
    hide LastLaunch, LastRequest, RunningAtRequest, LastReport, ReportsAreAccurate, Exit;
    SettledInforms(first, s, a.swallowed);
    More(first, s.trace, Healthy(s.target));
    if !a.fault.Committing? && !a.fault.ReportingCommit? {
      ExitInforms(c, first, Settled(s, a.swallowed), a);
    }
  }

  lemma RollBackInforms(c: Config, first: Option<Report>, s: State, a: Attempt)
    requires Informs(first, s) && s.probing
    ensures Informs(first, RollBack(c, s, a))
  {
    hide LastLaunch, LastRequest, RunningAtRequest, LastReport, ReportsAreAccurate;
    var report := Report(false, Some(s.target), s.previous, "health check failed; rolled back");
    var found := Found(s.disk.freeze, a.swallowed);
    var t1 := s.trace + [Unhealthy(s.target, found)];
    var t2 := t1 + [Reported(report)];
    More(first, s.trace, Unhealthy(s.target, found));
    assert t1[|t1| - 1] == Unhealthy(s.target, found) && AccurateAfter(t1, report);
    More(first, t1, Reported(report));
    assert t2 + [] == t2;
    if Restoring(c, found, !a.swallowed.restoreRaises) != [] {
      More(first, t2, Restored(found.value, !a.swallowed.restoreRaises));
    }
  }

  lemma TurnInforms(c: Config, first: Option<Report>, s: State, a: Attempt)
    requires Informs(first, s)
    ensures Informs(first, Turn(c, s, a))
  {
    hide LastLaunch, LastRequest, RunningAtRequest, LastReport, ReportsAreAccurate;
    hide Exit, Commit, RollBack, BecomesHealthy;
    if !s.stopped && !a.fault.Launching? {
      var s1 := Launch(s, a);
      More(first, s.trace, Launched(s.target, s.probing));
      if !s.probing {
        ExitInforms(c, first, s1, a);
      } else {
        CommitInforms(c, first, s1, a);
        RollBackInforms(c, first, s1, a);
      }
    }
  }

  // ------------------------------------------------------ main results

  /**
   Whatever fails, every report is about the last request, names the version that was
   running when it was made, and is positive exactly right after that version's commit;
   the result file holds the last report; and a probe has its own request's time limit.
   */
  lemma {:induction false} ReportsCanBeTrusted(c: Config, s0: State, attempts: seq<Attempt>)
    requires s0.trace == [] && !s0.probing && s0.probeTimeout == None
    ensures Informs(s0.disk.result, Run(c, s0, attempts))
  {
    hide Turn;
    if attempts != [] {
      ReportsCanBeTrusted(c, s0, attempts[..|attempts| - 1]);
      TurnInforms(c, s0.disk.result, Run(c, s0, attempts[..|attempts| - 1]), attempts[|attempts| - 1]);
    }
  }

  // ------------------------------------------------------ backing off

  /** `x` doubled `n` times. */
  function Doubled(x: real, n: nat): real {
    if n == 0 then x else 2.0 * Doubled(x, n - 1)
  }

  /** The server could not be launched, or it crashed before it had run for long. */
  predicate CrashesSoon(c: Config, a: Attempt) {
    || a.fault.Launching?
    || (a.fault.NoFault? && a.exit != EXIT_STOP && a.exit != EXIT_APPLY_UPDATE && a.ranFor <= c.maxBackoff)
  }

  lemma {:induction false} DoublingGrows(x: real, n: nat)
    requires x > 0.0
    ensures Doubled(x, n) >= x
  {
    if n > 0 {
      DoublingGrows(x, n - 1);
    }
  }

  lemma DoubledUpToTheCap(cap: real, x: real)
    requires cap > 0.0 && x > 0.0
    ensures Min(cap, Min(cap, x) * 2.0) == Min(cap, 2.0 * x)
  {
  }

  lemma CrashOnlySlows(c: Config, s: State, a: Attempt)
    requires !s.stopped && !s.probing && CrashesSoon(c, a)
    ensures var s' := Turn(c, s, a);
            && !s'.stopped && !s'.probing && s'.target == s.target && s'.lastGood == s.lastGood
            && s'.backoff == Slower(c, s.backoff)
  {
  }

  /** The same version is launched again and again, and the wait doubles each time up to the cap. */
  lemma {:induction false} BackoffDoubles(c: Config, s: State, attempts: seq<Attempt>)
    requires !s.stopped && !s.probing && 0.0 < s.backoff <= c.maxBackoff
    requires forall a | a in attempts :: CrashesSoon(c, a)
    ensures var s' := Run(c, s, attempts);
            && !s'.stopped && !s'.probing && s'.target == s.target && s'.lastGood == s.lastGood
            && s'.backoff == Min(c.maxBackoff, Doubled(s.backoff, |attempts|))
  {
    hide Turn, CrashesSoon;
    if attempts != [] {
      var n := |attempts| - 1;
      BackoffDoubles(c, s, attempts[..n]);
      CrashOnlySlows(c, Run(c, s, attempts[..n]), attempts[n]);
      DoublingGrows(s.backoff, n);
      DoubledUpToTheCap(c.maxBackoff, Doubled(s.backoff, n));
    }
  }

  /** Between the cap and a second, whichever way round they are. */
  predicate InRange(c: Config, s: State) {
    Min(1.0, c.maxBackoff) <= s.backoff && (s.backoff <= 1.0 || s.backoff <= c.maxBackoff)
  }

  lemma ExitStaysInRange(c: Config, s: State, a: Attempt)
    requires c.maxBackoff >= 0.0 && InRange(c, s)
    ensures InRange(c, Exit(c, s, a))
  {
    hide Acceptable, Reason;
  }

  lemma TurnStaysInRange(c: Config, s: State, a: Attempt)
    requires c.maxBackoff >= 0.0 && InRange(c, s)
    ensures InRange(c, Turn(c, s, a))
  {
    hide BecomesHealthy, Restoring, Exit;
    ExitStaysInRange(c, Launch(s, a), a);
    ExitStaysInRange(c, Settled(Launch(s, a), a.swallowed), a);
  }

  /** No run ever waits less than the cap or a second, or more than both. */
  lemma {:induction false} BackoffIsBounded(c: Config, s: State, attempts: seq<Attempt>)
    requires c.maxBackoff >= 0.0 && InRange(c, s)
    ensures InRange(c, Run(c, s, attempts))
  {
    hide Turn;
    if attempts != [] {
      BackoffIsBounded(c, s, attempts[..|attempts| - 1]);
      TurnStaysInRange(c, Run(c, s, attempts[..|attempts| - 1]), attempts[|attempts| - 1]);
    }
  }
}
