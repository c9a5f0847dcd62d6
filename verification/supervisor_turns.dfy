/**
 What a turn of the supervisor comes to, seen from outside: how long a probe lasts, which
 requests are taken up and why others are not, when the supervisor stops, how long it
 waits, and what becomes of the dependency snapshot.
 */
module SupervisorTurns {
  import opened Wrappers
  import opened Layout
  import opened Supervisor
  import opened SupervisorReports

  // ------------------------------------------------------ the beginning

  /**
   The supervisor starts the version that `current` names, or else seeds it with the one it
   was given; it falls back to the version that `last-good` names, or else trusts the one
   it starts and says so on disk.  It does not start without a version, and only then.
   */
  lemma StartResolves(c: Config, disk: Disk)
    ensures var current, good, s := ReadPointer(disk.current), ReadPointer(disk.lastGood), Start(c, disk);
            && (s == None <==> current == None && (c.initialVersion == None || c.initialVersion == Some("")))
            && (s.Some? && current.Some? ==>
                  s.value.target == current.value && s.value.disk.current == disk.current)
            && (s.Some? && current == None ==>
                  Some(s.value.target) == c.initialVersion && s.value.disk.current == Some(Written(s.value.target)))
            && (s.Some? && good.Some? ==>
                  s.value.lastGood == good.value && s.value.disk.lastGood == disk.lastGood)
            && (s.Some? && good == None ==> s.value.disk.lastGood == Some(Written(s.value.target)))
            && (s.Some? && good == None && Plain(s.value.target) ==> s.value.lastGood == s.value.target)
            && (s.Some? ==>
                  && !s.value.probing && !s.value.stopped && s.value.backoff == 1.0 && s.value.trace == []
                  && s.value.disk.(current := disk.current, lastGood := disk.lastGood) == disk)
  {
    if Start(c, disk).Some? && Plain(Start(c, disk).value.target) {
      PointerRoundTrip(Start(c, disk).value.target);
    }
    hide ReadPointer, Written;
  }

  // ------------------------------------------------------ the probe

  /** The time that the request under probe asks for, or else the configured one. */
  function Window(c: Config, trace: seq<Mark>): real {
    match LastRequest(trace)
    case None => c.healthTimeout
    case Some(Pending(_, None)) => c.healthTimeout
    case Some(Pending(_, Some(asked))) => if asked == 0.0 then c.healthTimeout else asked
  }

  /** Poll `k` is healthy, and up to it every poll came within the window and found the server running. */
  predicate HealthyInTime(ticks: seq<Tick>, start: real, window: real, k: nat)
    requires k < |ticks|
  {
    ticks[k].healthy && forall j | 0 <= j <= k :: ticks[j].now < start + window && !ticks[j].exited
  }

  lemma CommittedIsHealthy(c: Config, s: State, a: Attempt)
    requires !s.stopped && s.probing && a.fault.NoFault?
    ensures var added := Turn(c, s, a).trace;
            |added| >= |s.trace|
            && (Committed(s.target) in added[|s.trace|..] <==>
                  BecomesHealthy(a.ticks, Deadline(c, s.probeTimeout, a.start)))
  {
    hide BecomesHealthy, Acceptable, Reason, IsChecked, Deadline;
    var s1 := Launch(s, a);
    var added := Turn(c, s, a).trace;
    if BecomesHealthy(a.ticks, Deadline(c, s.probeTimeout, a.start)) {
      ExitOnlyAdds(c, Settled(s1, a.swallowed), a);
      var told := Settled(s1, a.swallowed).trace;
      hide Exit;
      assert told[|s.trace| + 2] == Committed(s.target) && added[|s.trace| + 2] == told[|s.trace| + 2];
      assert added[|s.trace|..][2] == Committed(s.target);
    }
  }

  lemma ExitOnlyAdds(c: Config, s: State, a: Attempt)
    ensures s.trace <= Exit(c, s, a).trace
  {
    hide Acceptable, Reason, IsChecked;
  }

  /**
   A version under probe is committed exactly when some poll finds it healthy, within the
   time its own request asked for, and it had not exited by then.
   */
  lemma ProbeLastsAsRequested(c: Config, s0: State, attempts: seq<Attempt>, a: Attempt)
    requires s0.trace == [] && !s0.probing && s0.probeTimeout == None
    requires var s := Run(c, s0, attempts); !s.stopped && s.probing && a.fault.NoFault?
    ensures var s := Run(c, s0, attempts);
            var added := Turn(c, s, a).trace;
            |added| >= |s.trace|
            && (Committed(s.target) in added[|s.trace|..] <==>
                  exists k | 0 <= k < |a.ticks| :: HealthyInTime(a.ticks, a.start, Window(c, s.trace), k))
  {
    var s := Run(c, s0, attempts);
    ReportsCanBeTrusted(c, s0, attempts);
    CommittedIsHealthy(c, s, a);
    var deadline := Deadline(c, s.probeTimeout, a.start);
    assert deadline == a.start + Window(c, s.trace);
    hide Run, Turn, Deadline, Window;
    forall k | 0 <= k < |a.ticks|
      ensures HealthyAt(a.ticks, deadline, k) <==> HealthyInTime(a.ticks, a.start, Window(c, s.trace), k)
    {
    }
  }

  // ------------------------------------------------------ the exit

  /** A turn without an error in which the server runs, unprobed, until it exits. */
  predicate RunsOut(s: State, a: Attempt) {
    !s.stopped && !s.probing && a.fault.NoFault?
  }

  /** The supervisor stops when the server exits cleanly, and goes on after any other exit. */
  lemma StopsOnCleanExit(c: Config, s: State, a: Attempt)
    requires RunsOut(s, a)
    ensures Turn(c, s, a).stopped <==> a.exit == 0
  {
    hide Acceptable, Reason, IsChecked;
  }

  /** Nothing but a clean exit of the server stops it. */
  lemma OnlyCleanExitsStop(c: Config, s: State, a: Attempt)
    requires !s.stopped && Turn(c, s, a).stopped
    ensures a.exit == 0 && !a.fault.Launching? && !a.fault.Waiting?
    ensures s.probing ==> BecomesHealthy(a.ticks, Deadline(c, s.probeTimeout, a.start))
  {
    hide BecomesHealthy, Acceptable, Reason, IsChecked;
  }

  /** Why a request is not taken up: the first of its faults. */
  predicate IsReason(disk: Disk, releases: set<string>, version: Option<string>, reason: string) {
    if version == None || !IsSafeVersion(version.value) then reason == "invalid version string in pending update"
    else if version.value in disk.failed then reason == "version previously failed a health check"
    else version.value !in releases && reason == "release not staged"
  }

  /**
   A request is taken up exactly when its version is safe, has not failed and is staged;
   it is then launched next, under probe.  Any other is answered with the first of its
   faults, and the same version runs on.
   */
  lemma RequestOutcome(c: Config, s: State, a: Attempt)
    requires RunsOut(s, a) && a.exit == 92 && a.late.pending.Some?
    ensures var s', version := Turn(c, s, a), a.late.pending.value.version;
            if version.Some? && IsSafeVersion(version.value) && version.value !in s.disk.failed
               && version.value in a.late.releases
            then s'.probing && s'.target == version.value && s'.disk.result == s.disk.result
            else
              && !s'.probing && s'.target == s.target
              && s'.disk.result.Some? && !s'.disk.result.value.ok && s'.disk.result.value.version == version
              && s'.disk.result.value.previous == Some(s.target)
              && IsReason(s.disk, a.late.releases, version, s'.disk.result.value.reason)
    ensures !a.swallowed.pendingStays ==> Turn(c, s, a).disk.pending == None
  {
    hide IsSafeVersion;
  }

  /** An exit for an update without a request changes nothing that is launched, and reports nothing. */
  lemma NoRequestNoChange(c: Config, s: State, a: Attempt)
    requires RunsOut(s, a) && a.exit == 92 && a.late.pending.None?
    ensures var s' := Turn(c, s, a);
            && !s'.stopped && !s'.probing && s'.target == s.target
            && s'.disk.result == s.disk.result && s'.backoff == s.backoff
  {
  }

  // ------------------------------------------------------ the wait after a crash

  /** A crash after a stable run, longer than the cap, waits as if it were the first. */
  lemma StableRunForgivesCrashes(c: Config, s: State, a: Attempt)
    requires RunsOut(s, a) && a.exit != 0 && a.exit != 92
    ensures Turn(c, s, a).target == s.target && !Turn(c, s, a).probing
    ensures Turn(c, s, a).backoff == Min(c.maxBackoff, (if a.ranFor > c.maxBackoff then 1.0 else s.backoff) * 2.0)
  {
  }

  /** So does the first crash of an update that has passed its probe, whatever came before. */
  lemma CommitForgivesCrashes(c: Config, s: State, a: Attempt)
    requires !s.stopped && s.probing && a.fault.NoFault? && a.exit != 0 && a.exit != 92
    requires BecomesHealthy(a.ticks, Deadline(c, s.probeTimeout, a.start))
    ensures Turn(c, s, a).backoff == Min(c.maxBackoff, 2.0)
  {
    hide BecomesHealthy;
  }

  // ------------------------------------------------------ the snapshot

  /**
   The snapshot does not outlive the update it was taken for: after a rollback, and after
   a request that is refused, there is none, unless it could not be read or removed.
   */
  lemma SnapshotIsUsedUp(c: Config, s: State, a: Attempt)
    requires a.fault.NoFault? && !s.stopped && !a.swallowed.snapshotStays && !a.swallowed.snapshotUnreadable
    requires if s.probing then !BecomesHealthy(a.ticks, Deadline(c, s.probeTimeout, a.start))
             else a.exit == 92 && a.late.pending.Some? && !Acceptable(WithFiles(s.disk, a.late), a.late.pending.value)
    ensures Turn(c, s, a).disk.freeze == None
  {
    hide BecomesHealthy, Acceptable, Reason;
  }

  /** And after a commit there is none until the server, running on, takes another. */
  lemma CommitDropsSnapshot(s: State, w: Swallowed)
    requires !w.snapshotStays
    ensures Settled(s, w).disk.freeze == None
  {
  }
}
