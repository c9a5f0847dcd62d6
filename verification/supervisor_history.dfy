/**
 What the supervisor's whole history shows: which versions it runs unprobed, what follows
 a failed probe, which probes can fail again, and what the server is told.
 */
module SupervisorHistory {
  import opened Wrappers
  import opened Layout
  import opened Sequences
  import opened Supervisor

  // ------------------------------------------------------ readings of a history

  /** The version committed last. */
  function LastGood(first: string, trace: seq<Mark>): string {
    if trace == [] then first
    else if trace[|trace| - 1].Committed? then trace[|trace| - 1].version
    else LastGood(first, trace[..|trace| - 1])
  }

  /** The versions whose probes failed, in order. */
  function Failures(trace: seq<Mark>): seq<string> {
    if trace == [] then []
    else
      Failures(trace[..|trace| - 1])
      + if trace[|trace| - 1].Unhealthy? then [trace[|trace| - 1].version] else []
  }

  /** The versions asked for, and the versions reported on, in order. */
  function Requested(trace: seq<Mark>): seq<Option<string>> {
    if trace == [] then []
    else
      Requested(trace[..|trace| - 1])
      + if trace[|trace| - 1].Applying? then [trace[|trace| - 1].request.version] else []
  }

  function Answered(trace: seq<Mark>): seq<Option<string>> {
    if trace == [] then []
    else
      Answered(trace[..|trace| - 1])
      + if trace[|trace| - 1].Reported? then [trace[|trace| - 1].report.version] else []
  }

  /** A version the supervisor started with, or one that has passed its probe. */
  predicate Trusted(s0: State, trace: seq<Mark>, version: string) {
    version == s0.target || version == s0.lastGood || Healthy(version) in trace
  }

  /** Every launch without a probe is of a version that was trusted by then. */
  predicate UnprobedAreTrusted(s0: State, trace: seq<Mark>) {
    trace == []
    || var init, last := trace[..|trace| - 1], trace[|trace| - 1];
       UnprobedAreTrusted(s0, init) && (last.Launched? && !last.probe ==> Trusted(s0, init, last.version))
  }

  /** Every request is taken up when all earlier ones have been answered, in their order. */
  predicate AnsweredInTurn(trace: seq<Mark>) {
    trace == []
    || var init, last := trace[..|trace| - 1], trace[|trace| - 1];
       AnsweredInTurn(init) && (last.Applying? ==> Requested(init) == Answered(init))
  }

  lemma More(s0: State, first: string, trace: seq<Mark>, m: Mark)
    ensures var t := trace + [m];
            && LastGood(first, t) == (if m.Committed? then m.version else LastGood(first, trace))
            && Failures(t) == (if m.Unhealthy? then Failures(trace) + [m.version] else Failures(trace))
            && Requested(t) == (if m.Applying? then Requested(trace) + [m.request.version] else Requested(trace))
            && Answered(t) == (if m.Reported? then Answered(trace) + [m.report.version] else Answered(trace))
            && (UnprobedAreTrusted(s0, t) <==>
                  UnprobedAreTrusted(s0, trace) && (m.Launched? && !m.probe ==> Trusted(s0, trace, m.version)))
            && (AnsweredInTurn(t) <==> AnsweredInTurn(trace) && (m.Applying? ==> Requested(trace) == Answered(trace)))
            && (forall v :: Trusted(s0, trace, v) ==> Trusted(s0, t, v))
  {
    assert (trace + [m])[..|trace|] == trace;
  }

  // ------------------------------------------------------ one turn at a time

  /** What the loop's variables owe to the history. */
  predicate Remembered(s0: State, s: State) {
    && s.lastGood == LastGood(s0.lastGood, s.trace)
    && UnprobedAreTrusted(s0, s.trace)
    && Trusted(s0, s.trace, s.lastGood)
    && (!s.probing ==> Trusted(s0, s.trace, s.target))
  }

  lemma ExitRemembers(c: Config, s0: State, s: State, a: Attempt)
    requires Remembered(s0, s) && !s.probing
    ensures Remembered(s0, Exit(c, s, a))
  {
    hide LastGood, UnprobedAreTrusted, Trusted, Requested, Answered, AnsweredInTurn, Failures, IsSafeVersion, Reason;
    var s1 := s.(disk := WithFiles(s.disk, a.late));
    if s1.disk.pending.Some? {
      var request := s1.disk.pending.value;
      More(s0, s0.lastGood, s.trace, Applying(request));
      if !Acceptable(s1.disk, request) {
        var report := Report(false, request.version, Some(s.target), Reason(s1.disk, request));
        More(s0, s0.lastGood, s.trace + [Applying(request)], Reported(report));
      }
    }
  }

  lemma CommitRemembers(c: Config, s0: State, s: State, a: Attempt)
    requires Remembered(s0, s) && s.probing
    ensures Remembered(s0, Commit(c, s, a))
  {
    hide LastGood, UnprobedAreTrusted, Exit;
    var report := Report(true, Some(s.target), s.previous, "");
    var t1 := s.trace + [Healthy(s.target)];
    More(s0, s0.lastGood, s.trace, Healthy(s.target));
    More(s0, s0.lastGood, t1, Committed(s.target));
    More(s0, s0.lastGood, t1 + [Committed(s.target)], Reported(report));
    if !a.fault.Committing? && !a.fault.ReportingCommit? {
      ExitRemembers(c, s0, Settled(s, a.swallowed), a);
    }
  }

  lemma RollBackRemembers(c: Config, s0: State, s: State, a: Attempt)
    requires Remembered(s0, s) && s.probing
    ensures Remembered(s0, RollBack(c, s, a))
  {
    hide LastGood, UnprobedAreTrusted, Trusted, Requested, Answered, AnsweredInTurn, Failures;
    var report := Report(false, Some(s.target), s.previous, "health check failed; rolled back");
    var found := Found(s.disk.freeze, a.swallowed);
    var t1 := s.trace + [Unhealthy(s.target, found)];
    var t2 := t1 + [Reported(report)];
    More(s0, s0.lastGood, s.trace, Unhealthy(s.target, found));
    More(s0, s0.lastGood, t1, Reported(report));
    assert t2 + [] == t2;
    if Restoring(c, found, !a.swallowed.restoreRaises) != [] {
      More(s0, s0.lastGood, t2, Restored(found.value, !a.swallowed.restoreRaises));
    }
  }

  lemma TurnRemembers(c: Config, s0: State, s: State, a: Attempt)
    requires Remembered(s0, s)
    ensures Remembered(s0, Turn(c, s, a))
  {
    hide LastGood, UnprobedAreTrusted, Exit, Commit, RollBack, BecomesHealthy;
    if !s.stopped && !a.fault.Launching? {
      var s1 := Launch(s, a);
      More(s0, s0.lastGood, s.trace, Launched(s.target, s.probing));
      if !s.probing {
        ExitRemembers(c, s0, s1, a);
      } else {
        CommitRemembers(c, s0, s1, a);
        RollBackRemembers(c, s0, s1, a);
      }
    }
  }

  lemma {:induction false} RunRemembers(c: Config, s0: State, attempts: seq<Attempt>)
    requires s0.trace == [] && !s0.probing
    ensures Remembered(s0, Run(c, s0, attempts))
  {
    hide Turn;
    if attempts != [] {
      RunRemembers(c, s0, attempts[..|attempts| - 1]);
      TurnRemembers(c, s0, Run(c, s0, attempts[..|attempts| - 1]), attempts[|attempts| - 1]);
    }
  }

  // ------------------------------------------------------ main results

  /**
   Whatever fails, the supervisor launches without a probe only a version it started with
   or one that has passed its probe, and falls back to the version committed last.
   */
  lemma OnlyTrustedVersionsRunUnprobed(c: Config, disk: Disk, attempts: seq<Attempt>)
    requires Start(c, disk).Some?
    ensures var s0 := Start(c, disk).value;
            var s := Run(c, s0, attempts);
            UnprobedAreTrusted(s0, s.trace) && s.lastGood == LastGood(s0.lastGood, s.trace)
  {
    RunRemembers(c, Start(c, disk).value, attempts);
  }

  // ------------------------------------------------------ every request gets its one answer

  /** No error comes between deciding a request and telling the server. */
  predicate ReportsSafely(a: Attempt) {
    !a.fault.SettingBack? && !a.fault.CheckingRequest? && !a.fault.SettingNew? && !a.fault.ReportingRejection?
  }

  predicate Balanced(s: State) {
    Requested(s.trace) == Answered(s.trace) + (if s.probing then [Some(s.target)] else []) && AnsweredInTurn(s.trace)
  }

  lemma ExitBalances(c: Config, s: State, a: Attempt)
    requires Balanced(s) && !s.probing && ReportsSafely(a)
    ensures Balanced(Exit(c, s, a))
  {
    hide Requested, Answered, AnsweredInTurn, LastGood, Failures, UnprobedAreTrusted, Trusted, IsSafeVersion;
    var s1 := s.(disk := WithFiles(s.disk, a.late));
    if s1.disk.pending.Some? {
      var request := s1.disk.pending.value;
      More(s, "", s.trace, Applying(request));
      if !Acceptable(s1.disk, request) {
        var report := Report(false, request.version, Some(s.target), Reason(s1.disk, request));
        More(s, "", s.trace + [Applying(request)], Reported(report));
      }
    }
  }

  lemma CommitBalances(c: Config, s: State, a: Attempt)
    requires Balanced(s) && s.probing && ReportsSafely(a)
    ensures Balanced(Commit(c, s, a))
  {
    hide Requested, Answered, AnsweredInTurn, Exit;
    var report := Report(true, Some(s.target), s.previous, "");
    var t1 := s.trace + [Healthy(s.target)];
    More(s, "", s.trace, Healthy(s.target));
    More(s, "", t1, Committed(s.target));
    More(s, "", t1 + [Committed(s.target)], Reported(report));
    if !a.fault.Committing? && !a.fault.ReportingCommit? {
      ExitBalances(c, Settled(s, a.swallowed), a);
    }
  }

  lemma RollBackBalances(c: Config, s: State, a: Attempt)
    requires Balanced(s) && s.probing && ReportsSafely(a)
    ensures Balanced(RollBack(c, s, a))
  {
    hide Requested, Answered, AnsweredInTurn, LastGood, Failures, UnprobedAreTrusted, Trusted;
    var report := Report(false, Some(s.target), s.previous, "health check failed; rolled back");
    var found := Found(s.disk.freeze, a.swallowed);
    var t1 := s.trace + [Unhealthy(s.target, found)];
    var t2 := t1 + [Reported(report)];
    More(s, "", s.trace, Unhealthy(s.target, found));
    More(s, "", t1, Reported(report));
    assert t2 + [] == t2;
    if Restoring(c, found, !a.swallowed.restoreRaises) != [] {
      More(s, "", t2, Restored(found.value, !a.swallowed.restoreRaises));
    }
  }

  lemma TurnBalances(c: Config, s: State, a: Attempt)
    requires Balanced(s) && ReportsSafely(a)
    ensures Balanced(Turn(c, s, a))
  {
    hide Requested, Answered, AnsweredInTurn, Exit, Commit, RollBack, BecomesHealthy;
    if !s.stopped && !a.fault.Launching? {
      var s1 := Launch(s, a);
      More(s, "", s.trace, Launched(s.target, s.probing));
      if !s.probing {
        ExitBalances(c, s1, a);
      } else {
        CommitBalances(c, s1, a);
        RollBackBalances(c, s1, a);
      }
    }
  }

  /**
   Every update the server asks for is answered by one report on that version before the
   next request is taken up; only the one being probed is still open.
   */
  lemma {:induction false} EveryRequestIsAnsweredOnce(c: Config, s0: State, attempts: seq<Attempt>)
    requires s0.trace == [] && !s0.probing
    requires forall a | a in attempts :: ReportsSafely(a)
    ensures Balanced(Run(c, s0, attempts))
  {
    hide Turn;
    if attempts != [] {
      EveryRequestIsAnsweredOnce(c, s0, attempts[..|attempts| - 1]);
      TurnBalances(c, Run(c, s0, attempts[..|attempts| - 1]), attempts[|attempts| - 1]);
    }
  }

  /** An error leaves a request without its report, or with a second one. */
  predicate Misreports(c: Config, s: State, a: Attempt) {
    && !s.stopped
    && match a.fault
       case SettingBack => ProbeFails(c, s, a)
       case CheckingRequest => TakesUp(c, s, a) && IsChecked(a.late.pending.value)
       case SettingNew => TakesUp(c, s, a) && Acceptable(WithFiles(s.disk, a.late), a.late.pending.value)
       case ReportingRejection => TakesUp(c, s, a) && !Acceptable(WithFiles(s.disk, a.late), a.late.pending.value)
       case _ => false
  }

  predicate TakesUp(c: Config, s: State, a: Attempt) {
    ReachesExit(c, s, a) && a.exit == EXIT_APPLY_UPDATE && a.late.pending.Some?
  }

  /** The turn waits for the server to exit, unless an error strikes before. */
  predicate ReachesExit(c: Config, s: State, a: Attempt) {
    s.probing ==> BecomesHealthy(a.ticks, Deadline(c, s.probeTimeout, a.start))
  }

  lemma ExitMisreports(c: Config, s: State, a: Attempt)
    requires Balanced(s) && !s.probing && a.late.pending.Some? && a.exit == EXIT_APPLY_UPDATE
    requires match a.fault
             case CheckingRequest => IsChecked(a.late.pending.value)
             case SettingNew => Acceptable(WithFiles(s.disk, a.late), a.late.pending.value)
             case ReportingRejection => !Acceptable(WithFiles(s.disk, a.late), a.late.pending.value)
             case _ => false
    ensures !Balanced(Exit(c, s, a))
  {
    hide Requested, Answered, AnsweredInTurn, IsSafeVersion, LastGood, Failures, UnprobedAreTrusted;
    var request := a.late.pending.value;
    More(s, "", s.trace, Applying(request));
    assert Exit(c, s, a).trace == s.trace + [Applying(request)];
    assert |Requested(Exit(c, s, a).trace)| == |Answered(s.trace)| + 1;
  }

  lemma SettledBalances(s: State, w: Swallowed)
    requires Balanced(s) && s.probing
    ensures Balanced(Settled(s, w))
  {
    hide Requested, Answered, AnsweredInTurn, LastGood, Failures, UnprobedAreTrusted, Trusted;
    var report := Report(true, Some(s.target), s.previous, "");
    var t1 := s.trace + [Healthy(s.target)];
    More(s, "", s.trace, Healthy(s.target));
    More(s, "", t1, Committed(s.target));
    More(s, "", t1 + [Committed(s.target)], Reported(report));
  }

  lemma RollBackMisreports(c: Config, s: State, a: Attempt)
    requires Balanced(s) && s.probing && a.fault.SettingBack?
    ensures !Balanced(RollBack(c, s, a))
  {
    hide Requested, Answered, AnsweredInTurn, LastGood, Failures, UnprobedAreTrusted, Trusted;
    var report := Report(false, Some(s.target), s.previous, "health check failed; rolled back");
    var found := Found(s.disk.freeze, a.swallowed);
    var t1 := s.trace + [Unhealthy(s.target, found)];
    var t2 := t1 + [Reported(report)];
    More(s, "", s.trace, Unhealthy(s.target, found));
    More(s, "", t1, Reported(report));
    assert t2 + [] == t2;
    if Restoring(c, found, !a.swallowed.restoreRaises) != [] {
      More(s, "", t2, Restored(found.value, !a.swallowed.restoreRaises));
    }
    assert |Answered(RollBack(c, s, a).trace)| == |Requested(s.trace)|;
  }

  lemma ExitMissed(c: Config, s: State, a: Attempt)
    requires a.fault.CheckingRequest? || a.fault.SettingNew? || a.fault.ReportingRejection?
    requires a.exit == EXIT_APPLY_UPDATE && a.late.pending.Some? ==>
               var acceptable := Acceptable(WithFiles(s.disk, a.late), a.late.pending.value);
               && (a.fault.CheckingRequest? ==> !IsChecked(a.late.pending.value))
               && (a.fault.SettingNew? ==> !acceptable) && (a.fault.ReportingRejection? ==> acceptable)
    ensures Exit(c, s, a) == Exit(c, s, a.(fault := NoFault))
  {
    hide IsSafeVersion, Reason;
  }

  /** An error that does not strike is none. */
  lemma MissedErrorIsNone(c: Config, s: State, a: Attempt)
    requires !Misreports(c, s, a) && !ReportsSafely(a)
    ensures Turn(c, s, a) == Turn(c, s, a.(fault := NoFault))
  {
    if !a.fault.SettingBack? && !s.stopped && ReachesExit(c, s, a) {
      var s1 := Launch(s, a);
      var s2 := if s.probing then Settled(s1, a.swallowed) else s1;
      if a.late.pending.Some? {
        AcceptableAlike(s, s2, a);
      }
      hide BecomesHealthy, Acceptable, IsChecked;
      ExitMissed(c, s2, a);
      hide Exit;
    } else {
      MissedBySettingBack(c, s, a);
    }
  }

  lemma MissedBySettingBack(c: Config, s: State, a: Attempt)
    requires !Misreports(c, s, a) && !ReportsSafely(a)
    requires a.fault.SettingBack? || s.stopped || !ReachesExit(c, s, a)
    ensures Turn(c, s, a) == Turn(c, s, a.(fault := NoFault))
  {
    hide BecomesHealthy, Acceptable, IsChecked, Reason, Restoring;
  }

  /** A turn keeps requests and reports matched exactly when no error comes between the two. */
  lemma BalancedIff(c: Config, s: State, a: Attempt)
    requires Balanced(s)
    ensures Balanced(Turn(c, s, a)) <==> !Misreports(c, s, a)
  {
    if ReportsSafely(a) {
      TurnBalances(c, s, a);
    } else if !Misreports(c, s, a) {
      MissedErrorIsNone(c, s, a);
      TurnBalances(c, s, a.(fault := NoFault));
    } else {
      StrikeUnbalances(c, s, a);
    }
  }

  lemma StrikeUnbalances(c: Config, s: State, a: Attempt)
    requires Balanced(s) && Misreports(c, s, a)
    ensures !Balanced(Turn(c, s, a))
  {
    hide BecomesHealthy, Exit, RollBack, Balanced, Acceptable;
    var s1 := Launch(s, a);
    LaunchBalances(s, a);
    if a.fault.SettingBack? {
      RollBackMisreports(c, s1, a);
    } else if s.probing {
      var s2 := Settled(s1, a.swallowed);
      SettledBalances(s1, a.swallowed);
      AcceptableAlike(s, s2, a);
      ExitMisreports(c, s2, a);
    } else {
      AcceptableAlike(s, s1, a);
      ExitMisreports(c, s1, a);
    }
  }

  lemma LaunchBalances(s: State, a: Attempt)
    requires Balanced(s)
    ensures Balanced(Launch(s, a))
  {
    hide Requested, Answered, AnsweredInTurn;
    More(s, "", s.trace, Launched(s.target, s.probing));
  }

  lemma AcceptableAlike(s: State, s': State, a: Attempt)
    requires s.disk.failed == s'.disk.failed && a.late.pending.Some?
    ensures Acceptable(WithFiles(s.disk, a.late), a.late.pending.value)
       <==> Acceptable(WithFiles(s'.disk, a.late), a.late.pending.value)
  {
  }

  predicate BalancedThroughout(c: Config, s0: State, attempts: seq<Attempt>) {
    forall k | 0 <= k <= |attempts| :: Balanced(Run(c, s0, attempts[..k]))
  }

  predicate NeverMisreports(c: Config, s0: State, attempts: seq<Attempt>) {
    forall k | 0 <= k < |attempts| :: !Misreports(c, Run(c, s0, attempts[..k]), attempts[k])
  }

  lemma BalancedSplits(c: Config, s0: State, attempts: seq<Attempt>)
    requires attempts != []
    ensures BalancedThroughout(c, s0, attempts)
       <==> BalancedThroughout(c, s0, attempts[..|attempts| - 1]) && Balanced(Run(c, s0, attempts))
  {
    hide Run, Balanced;
    var init := attempts[..|attempts| - 1];
    assert attempts[..|attempts|] == attempts;
    assert forall k | 0 <= k <= |init| :: init[..k] == attempts[..k];
  }

  lemma NeverMisreportsSplits(c: Config, s0: State, attempts: seq<Attempt>)
    requires attempts != []
    ensures var init, last := attempts[..|attempts| - 1], attempts[|attempts| - 1];
            NeverMisreports(c, s0, attempts) <==> NeverMisreports(c, s0, init) && !Misreports(c, Run(c, s0, init), last)
  {
    hide Run, Misreports;
    var init := attempts[..|attempts| - 1];
    assert forall k | 0 <= k <= |init| :: init[..k] == attempts[..k];
    if NeverMisreports(c, s0, attempts) {
      forall k | 0 <= k < |init|
        ensures !Misreports(c, Run(c, s0, init[..k]), init[k])
      {
        assert init[k] == attempts[k] && init[..k] == attempts[..k];
      }
    } else {
      var k :| 0 <= k < |attempts| && Misreports(c, Run(c, s0, attempts[..k]), attempts[k]);
      assert k < |init| ==> Misreports(c, Run(c, s0, init[..k]), init[k]);
    }
  }

  /** A whole run keeps them matched, at every turn, exactly when in no turn an error comes between the two. */
  lemma {:induction false} BalancedThroughoutIff(c: Config, s0: State, attempts: seq<Attempt>)
    requires s0.trace == [] && !s0.probing
    ensures BalancedThroughout(c, s0, attempts) <==> NeverMisreports(c, s0, attempts)
  {
    if attempts == [] {
      NothingIsBalanced(s0);
      hide Balanced;
      assert attempts[..0] == [];
    } else {
      hide Turn, Balanced, Misreports, BalancedThroughout, NeverMisreports;
      var init, last := attempts[..|attempts| - 1], attempts[|attempts| - 1];
      BalancedThroughoutIff(c, s0, init);
      BalancedSplits(c, s0, attempts);
      NeverMisreportsSplits(c, s0, attempts);
      if BalancedThroughout(c, s0, init) {
        LastIsBalanced(c, s0, init);
        BalancedIff(c, Run(c, s0, init), last);
      }
    }
  }

  lemma LastIsBalanced(c: Config, s0: State, attempts: seq<Attempt>)
    requires BalancedThroughout(c, s0, attempts)
    ensures Balanced(Run(c, s0, attempts))
  {
    hide Run, Balanced;
    assert attempts[..|attempts|] == attempts;
  }

  lemma NothingIsBalanced(s0: State)
    requires s0.trace == [] && !s0.probing
    ensures Balanced(s0)
  {
  }

  // ------------------------------------------------------ no version fails twice

  /** No error comes between a failed probe and the way back. */
  predicate FallsBackSafely(a: Attempt) {
    !a.fault.MarkingFailed? && !a.fault.ReportingRollback? && !a.fault.SettingBack?
  }

  /** The failures so far are distinct, marked and among the staged; a version being probed is not marked. */
  predicate FailuresAreMarked(s: State, staged: set<string>) {
    && NoRepeats(Failures(s.trace))
    && (forall v | v in Failures(s.trace) :: v in s.disk.failed && v in staged)
    && (s.probing ==> s.target !in s.disk.failed && s.target in staged)
  }

  lemma ExitKeepsMarks(c: Config, s: State, a: Attempt, staged: set<string>)
    requires FailuresAreMarked(s, staged) && !s.probing && a.late.releases <= staged
    ensures FailuresAreMarked(Exit(c, s, a), staged)
  {
    hide Failures, NoRepeats, IsSafeVersion, Reason, LastGood, Requested, Answered, UnprobedAreTrusted, AnsweredInTurn;
    var s1 := s.(disk := WithFiles(s.disk, a.late));
    if s1.disk.pending.Some? {
      var request := s1.disk.pending.value;
      More(s, "", s.trace, Applying(request));
      if !Acceptable(s1.disk, request) {
        var report := Report(false, request.version, Some(s.target), Reason(s1.disk, request));
        More(s, "", s.trace + [Applying(request)], Reported(report));
      }
    }
  }

  lemma CommitKeepsMarks(c: Config, s: State, a: Attempt, staged: set<string>)
    requires FailuresAreMarked(s, staged) && s.probing && a.late.releases <= staged
    ensures FailuresAreMarked(Commit(c, s, a), staged)
  {
    hide Failures, NoRepeats, Exit;
    var report := Report(true, Some(s.target), s.previous, "");
    var t1 := s.trace + [Healthy(s.target)];
    More(s, "", s.trace, Healthy(s.target));
    More(s, "", t1, Committed(s.target));
    More(s, "", t1 + [Committed(s.target)], Reported(report));
    if !a.fault.Committing? && !a.fault.ReportingCommit? {
      ExitKeepsMarks(c, Settled(s, a.swallowed), a, staged);
    }
  }

  lemma RollBackKeepsMarks(c: Config, s: State, a: Attempt, staged: set<string>)
    requires FailuresAreMarked(s, staged) && s.probing && FallsBackSafely(a)
    ensures FailuresAreMarked(RollBack(c, s, a), staged)
  {
    hide Failures, LastGood, Requested, Answered, UnprobedAreTrusted, AnsweredInTurn, NoRepeats;
    OneMoreIsDistinct(Failures(s.trace), s.target);
    var report := Report(false, Some(s.target), s.previous, "health check failed; rolled back");
    var found := Found(s.disk.freeze, a.swallowed);
    var t1 := s.trace + [Unhealthy(s.target, found)];
    var t2 := t1 + [Reported(report)];
    More(s, "", s.trace, Unhealthy(s.target, found));
    More(s, "", t1, Reported(report));
    assert t2 + [] == t2;
    if Restoring(c, found, !a.swallowed.restoreRaises) != [] {
      More(s, "", t2, Restored(found.value, !a.swallowed.restoreRaises));
    }
  }

  lemma TurnKeepsMarks(c: Config, s: State, a: Attempt, staged: set<string>)
    requires FailuresAreMarked(s, staged) && FallsBackSafely(a) && a.late.releases <= staged
    ensures FailuresAreMarked(Turn(c, s, a), staged)
  {
    hide Failures, NoRepeats, Exit, Commit, RollBack, BecomesHealthy;
    if !s.stopped && !a.fault.Launching? {
      var s1 := Launch(s, a);
      More(s, "", s.trace, Launched(s.target, s.probing));
      if !s.probing {
        ExitKeepsMarks(c, s1, a, staged);
      } else {
        CommitKeepsMarks(c, s1, a, staged);
        RollBackKeepsMarks(c, s1, a, staged);
      }
    }
  }

  lemma {:induction false} RunKeepsMarks(c: Config, s0: State, attempts: seq<Attempt>, staged: set<string>)
    requires s0.trace == [] && !s0.probing
    requires forall a | a in attempts :: FallsBackSafely(a) && a.late.releases <= staged
    ensures FailuresAreMarked(Run(c, s0, attempts), staged)
  {
    hide Turn;
    if attempts != [] {
      RunKeepsMarks(c, s0, attempts[..|attempts| - 1], staged);
      TurnKeepsMarks(c, Run(c, s0, attempts[..|attempts| - 1]), attempts[|attempts| - 1], staged);
    }
  }

  /** No version fails two probes, so there are at most as many rollbacks as versions ever staged. */
  lemma EachVersionFailsOnce(c: Config, s0: State, attempts: seq<Attempt>, staged: set<string>)
    requires s0.trace == [] && !s0.probing
    requires forall a | a in attempts :: FallsBackSafely(a) && a.late.releases <= staged
    ensures var failures := Failures(Run(c, s0, attempts).trace);
            NoRepeats(failures) && |failures| <= |staged|
  {
    RunKeepsMarks(c, s0, attempts, staged);
    DistinctAreFew(Failures(Run(c, s0, attempts).trace), staged);
  }

  /** The probe of this turn was made and failed. */
  predicate ProbeFails(c: Config, s: State, a: Attempt) {
    && !s.stopped && s.probing && !a.fault.Launching? && !a.fault.Probing?
    && !BecomesHealthy(a.ticks, Deadline(c, s.probeTimeout, a.start))
  }

  /** After a failed probe the supervisor leaves that version exactly when no error comes on the way back. */
  lemma FailedProbeIsLeftIff(c: Config, s: State, a: Attempt)
    requires ProbeFails(c, s, a)
    ensures var s' := Turn(c, s, a);
            && !s'.stopped && (FallsBackSafely(a) <==> !s'.probing)
            && s'.target == if FallsBackSafely(a) then s.lastGood else s.target
  {
  }

  /** So an error there lets the same version fail once more. */
  lemma ErrorRepeatsTheProbe(c: Config, s: State, a: Attempt, again: Attempt)
    requires ProbeFails(c, s, a) && !FallsBackSafely(a)
    requires ProbeFails(c, Turn(c, s, a), again) && FallsBackSafely(again)
    ensures Failures(Turn(c, Turn(c, s, a), again).trace) == Failures(s.trace) + [s.target] + [s.target]
  {
    hide BecomesHealthy, Failures;
    FailedProbeIsCounted(c, s, a);
    FailedProbeIsCounted(c, Turn(c, s, a), again);
  }

  lemma FailedProbeIsCounted(c: Config, s: State, a: Attempt)
    requires ProbeFails(c, s, a)
    ensures Failures(Turn(c, s, a).trace) == Failures(s.trace) + [s.target]
    ensures !FallsBackSafely(a) ==> Turn(c, s, a).target == s.target
  {
    hide BecomesHealthy, Failures, LastGood, Requested, Answered, UnprobedAreTrusted, AnsweredInTurn;
    var s1 := Launch(s, a);
    var report := Report(false, Some(s.target), s.previous, "health check failed; rolled back");
    var found := Found(s1.disk.freeze, a.swallowed);
    var t1 := s1.trace + [Unhealthy(s.target, found)];
    var t2 := t1 + [Reported(report)];
    More(s, "", s.trace, Launched(s.target, s.probing));
    More(s, "", s1.trace, Unhealthy(s.target, found));
    More(s, "", t1, Reported(report));
    assert t2 + [] == t2;
    if Restoring(c, found, !a.swallowed.restoreRaises) != [] {
      More(s, "", t2, Restored(found.value, !a.swallowed.restoreRaises));
    }
  }

  // ------------------------------------------------------ a run in which one fails twice

  const NEWER := Files(Some(Pending(Some("2"), None)), None, {"2"})
  const STAGED := Files(None, None, {"2"})

  /** The server asks for an update; its probe fails, and marking it fails too; then it fails again. */
  function FailingTwice(): seq<Attempt> {
    [Attempt(NoFault, NOTHING_SWALLOWED, 0.0, [], STAGED, NEWER, EXIT_APPLY_UPDATE, 0.0),
     Attempt(MarkingFailed, NOTHING_SWALLOWED, 0.0, [], STAGED, STAGED, 1, 0.0),
     Attempt(NoFault, NOTHING_SWALLOWED, 0.0, [], STAGED, STAGED, 1, 0.0)]
  }

  const CONFIG := Config(60.0, 30.0, None, false)
  const INSTALLED := Disk(Some("1\n"), Some("1\n"), {}, None, None, None, {"2"})

  lemma RunMore(c: Config, s0: State, attempts: seq<Attempt>, k: nat)
    requires k < |attempts|
    ensures Run(c, s0, attempts[..k + 1]) == Turn(c, Run(c, s0, attempts[..k]), attempts[k])
    ensures Run(c, s0, attempts[..0]) == s0
  {
    assert attempts[..k + 1][..k] == attempts[..k];
  }

  lemma StartsInstalled()
    ensures Start(CONFIG, INSTALLED)
         == Some(State(INSTALLED, "1", "1", false, None, 1.0, None, false, []))
  {
    assert "1\n"[..1] == "1";
    TrimOfTrimmed("1");
  }

  lemma NewerIsSafe()
    ensures IsSafeVersion("2")
  {
    assert "2"[..1] == "2" && IsVersionText("2"[..1]) && DollarAt("2", 1);
  }

  lemma TakesUpNewer(s: State)
    requires s == State(INSTALLED, "1", "1", false, None, 1.0, None, false, [])
    ensures var s' := Turn(CONFIG, s, FailingTwice()[0]);
            !s'.stopped && s'.probing && s'.target == "2" && Failures(s'.trace) == []
  {
    NewerIsSafe();
    hide IsSafeVersion, Failures, LastGood, Requested, Answered, UnprobedAreTrusted, AnsweredInTurn, Commit, RollBack;
    var a := Attempt(NoFault, NOTHING_SWALLOWED, 0.0, [], STAGED, NEWER, EXIT_APPLY_UPDATE, 0.0);
    assert FailingTwice()[0] == a;
    var s1 := Launch(s, a);
    assert s1.trace == [] + [Launched("1", false)];
    assert Turn(CONFIG, s, a) == Apply(CONFIG, s1.(disk := WithFiles(s1.disk, NEWER)), a);
    More(s, "", [], Launched("1", false));
    More(s, "", s1.trace, Applying(NEWER.pending.value));
    assert Failures([]) == [] by { NoneFailed(); }
  }

  lemma NoneFailed()
    ensures Failures([]) == []
  {
  }

  /** From a start like any other: one error on the way back, and the version fails its probe twice. */
  lemma AVersionCanFailTwice()
    ensures Start(CONFIG, INSTALLED).Some?
    ensures Failures(Run(CONFIG, Start(CONFIG, INSTALLED).value, FailingTwice()).trace) == ["2", "2"]
  {
    StartsInstalled();
    var s0, attempts := Start(CONFIG, INSTALLED).value, FailingTwice();
    assert attempts[..3] == attempts;
    TakesUpNewer(s0);
    assert !BecomesHealthy([], Deadline(CONFIG, None, 0.0));
    hide Run, Turn, Failures, Start;
    RunMore(CONFIG, s0, attempts, 0);
    RunMore(CONFIG, s0, attempts, 1);
    RunMore(CONFIG, s0, attempts, 2);
    var s1 := Run(CONFIG, s0, attempts[..1]);
    FailedProbeIsLeftIff(CONFIG, s1, attempts[1]);
    FailedProbeIsCounted(CONFIG, s1, attempts[1]);
    FailedProbeIsCounted(CONFIG, Run(CONFIG, s0, attempts[..2]), attempts[2]);
  }

  // ------------------------------------------------------ what follows a failed probe

  /** How many snapshots a rollback tries to restore. */
  function Restores(c: Config, found: Option<string>): nat {
    if found.Some? && c.restores then 1 else 0
  }

  /**
   A failed probe is followed by its report, by the attempt to restore the snapshot found
   then, and, when anything is launched again, by the version committed last, without a
   probe.
   */
  predicate FallsBack(c: Config, s0: State, trace: seq<Mark>, j: nat)
    requires j < |trace| && trace[j].Unhealthy?
  {
    var next := j + 2 + Restores(c, trace[j].found);
    && next <= |trace|
    && trace[j + 1].Reported? && !trace[j + 1].report.ok && trace[j + 1].report.version == Some(trace[j].version)
    && (Restores(c, trace[j].found) == 1 ==>
          trace[j + 2].Restored? && trace[j + 2].snapshot == trace[j].found.value)
    && (next < |trace| ==> trace[next] == Launched(LastGood(s0.lastGood, trace[..j]), false))
  }

  predicate FellBack(c: Config, s0: State, s: State, j: nat)
    requires j < |s.trace| && s.trace[j].Unhealthy?
  {
    && FallsBack(c, s0, s.trace, j)
    && (j + 2 + Restores(c, s.trace[j].found) == |s.trace| ==>
          !s.probing && s.target == LastGood(s0.lastGood, s.trace[..j]))
  }

  predicate AllFellBack(c: Config, s0: State, s: State) {
    forall j | 0 <= j < |s.trace| && s.trace[j].Unhealthy? :: FellBack(c, s0, s, j)
  }

  predicate NoFailures(added: seq<Mark>) {
    forall i | 0 <= i < |added| :: !added[i].Unhealthy?
  }

  /** What a clean rollback adds after the launch. */
  function RollBackMarks(c: Config, s: State, found: Option<string>, done: bool): seq<Mark> {
    var report := Report(false, Some(s.target), s.previous, "health check failed; rolled back");
    [Unhealthy(s.target, found), Reported(report)] + Restoring(c, found, done)
  }

  function RolledBack(c: Config, s: State, a: Attempt): seq<Mark> {
    RollBackMarks(c, s, Found(a.early.freeze, a.swallowed), !a.swallowed.restoreRaises)
  }

  lemma ExitAdds(c: Config, s: State, a: Attempt) returns (added: seq<Mark>)
    ensures Exit(c, s, a).trace == s.trace + added && NoFailures(added)
  {
    hide IsSafeVersion, Reason;
    var s1 := s.(disk := WithFiles(s.disk, a.late));
    added := Exit(c, s, a).trace[|s.trace|..];
    if s1.disk.pending.Some? {
      assert forall m1, m2 :: (s.trace + [m1]) + [m2] == s.trace + [m1, m2];
    }
  }

  lemma CommitAdds(c: Config, s: State, a: Attempt) returns (added: seq<Mark>)
    ensures Commit(c, s, a).trace == s.trace + added && NoFailures(added)
  {
    hide Exit;
    var exit := ExitAdds(c, Settled(s, a.swallowed), a);
    var told := [Healthy(s.target), Committed(s.target)];
    var report := [Reported(Report(true, Some(s.target), s.previous, ""))];
    added := if a.fault.Committing? then told[..1] else if a.fault.ReportingCommit? then told else told + report + exit;
  }

  lemma RollBackAdds(c: Config, s: State, a: Attempt)
    requires FallsBackSafely(a)
    ensures RollBack(c, s, a).trace
         == s.trace + RollBackMarks(c, s, Found(s.disk.freeze, a.swallowed), !a.swallowed.restoreRaises)
    ensures !RollBack(c, s, a).probing && RollBack(c, s, a).target == s.lastGood
  {
    hide Restoring;
  }

  /** A turn adds to the history, starting with its launch; only a rollback adds a failure, in second place. */
  lemma TurnAdds(c: Config, s: State, a: Attempt) returns (added: seq<Mark>)
    requires FallsBackSafely(a)
    ensures Turn(c, s, a).trace == s.trace + added
    ensures added != [] ==> added[0] == Launched(s.target, s.probing)
    ensures added == [] ==> Turn(c, s, a).target == s.target && Turn(c, s, a).probing == s.probing
    ensures !ProbeFails(c, s, a) ==> NoFailures(added)
    ensures ProbeFails(c, s, a) ==>
              && added == [Launched(s.target, s.probing)] + RolledBack(c, s, a)
              && !Turn(c, s, a).probing && Turn(c, s, a).target == s.lastGood
  {
    hide BecomesHealthy, Exit, Commit, RollBack, RollBackMarks;
    var s1 := Launch(s, a);
    var launched := [Launched(s.target, s.probing)];
    if s.stopped || a.fault.Launching? {
      added := [];
    } else if !s.probing {
      var more := ExitAdds(c, s1, a);
      added := launched + more;
    } else if a.fault.Probing? {
      added := launched;
    } else if ProbeFails(c, s, a) {
      RollBackAdds(c, s1, a);
      SameMarks(c, s1, s, Found(a.early.freeze, a.swallowed), !a.swallowed.restoreRaises);
      added := launched + RolledBack(c, s, a);
    } else {
      var more := CommitAdds(c, s1, a);
      added := launched + more;
    }
  }

  lemma SameMarks(c: Config, s: State, s': State, found: Option<string>, done: bool)
    requires s.target == s'.target && s.previous == s'.previous
    ensures RollBackMarks(c, s, found, done) == RollBackMarks(c, s', found, done)
  {
  }

  lemma TurnFallsBack(c: Config, s0: State, s: State, a: Attempt)
    requires AllFellBack(c, s0, s) && s.lastGood == LastGood(s0.lastGood, s.trace) && FallsBackSafely(a)
    ensures AllFellBack(c, s0, Turn(c, s, a))
  {
    hide Turn, ProbeFails, RolledBack, Restores;
    var s' := Turn(c, s, a);
    var added := TurnAdds(c, s, a);
    forall j | 0 <= j < |s'.trace| && s'.trace[j].Unhealthy?
      ensures FellBack(c, s0, s', j)
    {
      if j < |s.trace| {
        OldFailure(c, s0, s, s', added, j);
      } else {
        NewFailure(c, s0, s, a, added, j);
      }
    }
  }

  lemma OldFailure(c: Config, s0: State, s: State, s': State, added: seq<Mark>, j: nat)
    requires j < |s.trace| && s.trace[j].Unhealthy? && FellBack(c, s0, s, j)
    requires s'.trace == s.trace + added
    requires added != [] ==> added[0] == Launched(s.target, s.probing)
    requires added == [] ==> s'.target == s.target && s'.probing == s.probing
    ensures FellBack(c, s0, s', j)
  {
    hide LastGood;
    assert s'.trace[..j] == s.trace[..j];
  }

  lemma NewFailure(c: Config, s0: State, s: State, a: Attempt, added: seq<Mark>, j: nat)
    requires s.lastGood == LastGood(s0.lastGood, s.trace)
    requires Turn(c, s, a).trace == s.trace + added && ProbeFails(c, s, a) && !Turn(c, s, a).probing
    requires Turn(c, s, a).target == s.lastGood
    requires added == [Launched(s.target, s.probing)] + RolledBack(c, s, a)
    requires |s.trace| <= j < |s.trace + added| && (s.trace + added)[j].Unhealthy?
    ensures FellBack(c, s0, Turn(c, s, a), j)
  {
    More(s0, s0.lastGood, s.trace, Launched(s.target, s.probing));
    hide LastGood, Turn, ProbeFails, Failures, Requested, Answered, UnprobedAreTrusted, AnsweredInTurn, Trusted;
    var t := Turn(c, s, a).trace;
    var before := s.trace + [Launched(s.target, s.probing)];
    var found := Found(a.early.freeze, a.swallowed);
    assert t == before + RolledBack(c, s, a);
    assert j == |before| && t[..j] == before;
    assert t[j] == Unhealthy(s.target, found);
    assert t[j + 2..] == Restoring(c, found, !a.swallowed.restoreRaises);
  }

  /** In every run without an error on the way back from a failed probe, each failure is followed as it should be. */
  lemma {:induction false} EveryFailureFallsBack(c: Config, s0: State, attempts: seq<Attempt>)
    requires s0.trace == [] && !s0.probing
    requires forall a | a in attempts :: FallsBackSafely(a)
    ensures AllFellBack(c, s0, Run(c, s0, attempts))
  {
    hide Turn;
    if attempts != [] {
      EveryFailureFallsBack(c, s0, attempts[..|attempts| - 1]);
      RunRemembers(c, s0, attempts[..|attempts| - 1]);
      TurnFallsBack(c, s0, Run(c, s0, attempts[..|attempts| - 1]), attempts[|attempts| - 1]);
    }
  }
}
