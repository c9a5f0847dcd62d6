/**
 The update supervisor's loop: launch, probe, commit or roll back.

 Launching, health checks, the clock, sleeping and what the server does to its own files
 are the environment's; one `Attempt` is all it answers during one turn of the loop.  An
 `OSError` can strike at any call that the loop guards against, one per turn.
 */
module Supervisor {
  import opened Wrappers
  import opened Layout

  const EXIT_STOP := 0
  const EXIT_APPLY_UPDATE := 92

  /** One poll of a probed server: the clock, whether it has exited, whether it is healthy. */
  datatype Tick = Tick(now: real, exited: bool, healthy: bool)

  /** The files that the server, not the supervisor, writes. */
  datatype Files = Files(pending: Option<Pending>, freeze: Option<string>, releases: set<string>)

  datatype Fault =
    | NoFault
    | Launching
    | Probing
    | Committing
    | ReportingCommit
    | MarkingFailed
    | ReportingRollback
    | SettingBack
    | Waiting
    | CheckingRequest
    | SettingNew
    | ReportingRejection

  /** Errors that the supervisor swallows where they strike: it then goes on as if the step were done. */
  datatype Swallowed = Swallowed(snapshotUnreadable: bool, restoreRaises: bool, snapshotStays: bool, pendingStays: bool)

  const NOTHING_SWALLOWED := Swallowed(false, false, false, false)

  /** `early` is there when the probe ends, `late` when the server exits; `start` is when the probe begins. */
  datatype Attempt = Attempt(
    fault: Fault, swallowed: Swallowed, start: real, ticks: seq<Tick>, early: Files, late: Files, exit: int,
    ranFor: real)

  datatype Config = Config(
    healthTimeout: real, maxBackoff: real, initialVersion: Option<string>, restores: bool)

  /** History: what was launched, decided, restored (`done` unless that raised), asked for and reported. */
  datatype Mark =
    | Launched(version: string, probe: bool)
    | Healthy(version: string)
    | Committed(version: string)
    | Unhealthy(version: string, found: Option<string>)
    | Restored(snapshot: string, done: bool)
    | Applying(request: Pending)
    | Reported(report: Report)

  datatype State = State(
    disk: Disk, target: string, lastGood: string, probing: bool, previous: Option<string>,
    backoff: real, probeTimeout: Option<real>, stopped: bool, trace: seq<Mark>)

  // ------------------------------------------------------ the probe

  function Deadline(c: Config, probeTimeout: Option<real>, start: real): real {
    start + if probeTimeout.Some? && probeTimeout.value != 0.0 then probeTimeout.value else c.healthTimeout
  }

  predicate HealthyAt(ticks: seq<Tick>, deadline: real, k: nat)
    requires k < |ticks|
  {
    ticks[k].healthy && forall j | 0 <= j <= k :: ticks[j].now < deadline && !ticks[j].exited
  }

  /** Some poll before the deadline finds the server healthy, and it had not exited by then. */
  predicate BecomesHealthy(ticks: seq<Tick>, deadline: real) {
    exists k | 0 <= k < |ticks| :: HealthyAt(ticks, deadline, k)
  }

  method AwaitHealth(ticks: seq<Tick>, deadline: real) returns (healthy: bool)
    ensures healthy <==> BecomesHealthy(ticks, deadline)
  {
    var i := 0;
    while i < |ticks| && ticks[i].now < deadline
      invariant 0 <= i <= |ticks|
      invariant forall j | 0 <= j < i :: ticks[j].now < deadline && !ticks[j].exited && !ticks[j].healthy
    {
      if ticks[i].exited {
        return false;
      }
      if ticks[i].healthy {
        assert HealthyAt(ticks, deadline, i);
        return true;
      }
      i := i + 1;
    }
    return false;
  }

  // ------------------------------------------------------ one turn of the loop

  function WithFiles(disk: Disk, f: Files): Disk {
    disk.(pending := f.pending, freeze := f.freeze, releases := f.releases)
  }

  function Min(a: real, b: real): real {
    if a <= b then a else b
  }

  function Slower(c: Config, backoff: real): real {
    Min(c.maxBackoff, backoff * 2.0)
  }

  function Retry(c: Config, s: State): State {
    s.(backoff := Slower(c, s.backoff))
  }

  /** What removing the snapshot leaves of it. */
  function Cleared(freeze: Option<string>, w: Swallowed): Option<string> {
    if w.snapshotStays then freeze else None
  }

  /** A healthy update has become the version to fall back to, and the server has been told. */
  function Settled(s: State, w: Swallowed): State {
    var report := Report(true, Some(s.target), s.previous, "");
    s.(disk := s.disk.(lastGood := Some(Written(s.target)), result := Some(report),
                       freeze := Cleared(s.disk.freeze, w)),
       lastGood := s.target, probing := false, probeTimeout := None, backoff := 1.0,
       trace := s.trace + [Healthy(s.target)] + [Committed(s.target)] + [Reported(report)])
  }

  function Commit(c: Config, s: State, a: Attempt): State {
    var s1 := s.(trace := s.trace + [Healthy(s.target)]);
    if a.fault.Committing? then Retry(c, s1)
    else
      var s2 := s1.(disk := s1.disk.(lastGood := Some(Written(s.target))), lastGood := s.target,
                    trace := s1.trace + [Committed(s.target)]);
      if a.fault.ReportingCommit? then Retry(c, s2)
      else
        Exit(c, Settled(s, a.swallowed), a)
  }

  /** The snapshot as a rollback finds it. */
  function Found(freeze: Option<string>, w: Swallowed): Option<string> {
    if w.snapshotUnreadable then None else freeze
  }

  function Restoring(c: Config, found: Option<string>, done: bool): seq<Mark> {
    if found.Some? && c.restores then [Restored(found.value, done)] else []
  }

  /** A snapshot that was not found is left alone. */
  function FreezeAfterRestore(freeze: Option<string>, w: Swallowed): Option<string> {
    if w.snapshotUnreadable then freeze else Cleared(freeze, w)
  }

  function RollBack(c: Config, s: State, a: Attempt): State {
    var found := Found(s.disk.freeze, a.swallowed);
    var s1 := s.(trace := s.trace + [Unhealthy(s.target, found)]);
    if a.fault.MarkingFailed? then Retry(c, s1)
    else
      var s2 := s1.(disk := s1.disk.(failed := s1.disk.failed + {s.target}));
      if a.fault.ReportingRollback? then Retry(c, s2)
      else
        var report := Report(false, Some(s.target), s.previous, "health check failed; rolled back");
        var freeze := FreezeAfterRestore(s.disk.freeze, a.swallowed);
        var s3 := s2.(disk := s2.disk.(result := Some(report), freeze := freeze),
                      trace := s2.trace + [Reported(report)] + Restoring(c, found, !a.swallowed.restoreRaises));
        if a.fault.SettingBack? then Retry(c, s3)
        else s3.(disk := s3.disk.(current := Some(Written(s.lastGood))), target := s.lastGood,
                 probing := false, probeTimeout := None)
  }

  /** The failed marker and the release are looked up only for a safe version. */
  predicate IsChecked(request: Pending) {
    request.version.Some? && IsSafeVersion(request.version.value)
  }

  predicate Acceptable(disk: Disk, request: Pending) {
    && request.version.Some? && IsSafeVersion(request.version.value)
    && request.version.value !in disk.failed && request.version.value in disk.releases
  }

  function Reason(disk: Disk, request: Pending): string
    requires !Acceptable(disk, request)
  {
    if request.version.None? || !IsSafeVersion(request.version.value) then "invalid version string in pending update"
    else if request.version.value in disk.failed then "version previously failed a health check"
    else "release not staged"
  }

  function Apply(c: Config, s: State, a: Attempt): State {
    var s1 := s.(disk := s.disk.(pending := if a.swallowed.pendingStays then s.disk.pending else None));
    if s.disk.pending.None? then s1
    else
      var request := s.disk.pending.value;
      var s2 := s1.(trace := s1.trace + [Applying(request)]);
      if a.fault.CheckingRequest? && IsChecked(request) then Retry(c, s2)
      else if Acceptable(s.disk, request) then
        var v := request.version.value;
        if a.fault.SettingNew? then Retry(c, s2.(previous := Some(s.target)))
        else s2.(disk := s2.disk.(current := Some(Written(v))), previous := Some(s.target), target := v,
                 probing := true, probeTimeout := request.timeout)
      else if a.fault.ReportingRejection? then Retry(c, s2)
      else
        var report := Report(false, request.version, Some(s.target), Reason(s.disk, request));
        s2.(disk := s2.disk.(result := Some(report), freeze := Cleared(s2.disk.freeze, a.swallowed)),
            trace := s2.trace + [Reported(report)])
  }

  /** The server runs until it exits, and the exit code says what is next. */
  function Exit(c: Config, s: State, a: Attempt): State {
    var s1 := s.(disk := WithFiles(s.disk, a.late));
    if a.fault.Waiting? then Retry(c, s1)
    else if a.exit == EXIT_STOP then s1.(stopped := true)
    else if a.exit == EXIT_APPLY_UPDATE then Apply(c, s1, a)
    else Retry(c, if a.ranFor > c.maxBackoff then s1.(backoff := 1.0) else s1)
  }

  function Launch(s: State, a: Attempt): State {
    s.(disk := WithFiles(s.disk, a.early), trace := s.trace + [Launched(s.target, s.probing)])
  }

  function Turn(c: Config, s: State, a: Attempt): State {
    if s.stopped then s
    else if a.fault.Launching? then Retry(c, s)
    else
      var s1 := Launch(s, a);
      if !s.probing then Exit(c, s1, a)
      else if a.fault.Probing? then Retry(c, s1)
      else if BecomesHealthy(a.ticks, Deadline(c, s.probeTimeout, a.start)) then Commit(c, s1, a)
      else RollBack(c, s1, a)
  }

  /** Before the first launch; `None` when there is nothing to start. */
  function Start(c: Config, disk: Disk): Option<State> {
    var current := ReadPointer(disk.current);
    if current == None && (c.initialVersion == None || c.initialVersion.value == "") then None
    else
      var target := if current.Some? then current.value else c.initialVersion.value;
      var d1 := if current.Some? then disk else disk.(current := Some(Written(target)));
      var d2 := if ReadPointer(d1.lastGood).Some? then d1 else d1.(lastGood := Some(Written(target)));
      var good := ReadPointer(d2.lastGood);
      Some(State(d2, target, if good.Some? then good.value else target, false, None, 1.0, None, false, []))
  }

  function Run(c: Config, s: State, attempts: seq<Attempt>): State {
    if attempts == [] then s
    else Turn(c, Run(c, s, attempts[..|attempts| - 1]), attempts[|attempts| - 1])
  }

  // ------------------------------------------------------ memory and disk

  /** The pointer holds the version, or reads as it. */
  predicate Mirrors(pointer: Option<string>, version: string) {
    pointer == Some(Written(version)) || ReadPointer(pointer) == Some(version)
  }

  predicate OnDisk(s: State) {
    && Mirrors(s.disk.current, s.target) && Mirrors(s.disk.lastGood, s.lastGood)
    && (s.probing ==> IsSafeVersion(s.target) && s.disk.current == Some(Written(s.target)))
  }

  lemma StartIsOnDisk(c: Config, disk: Disk)
    requires Start(c, disk).Some?
    ensures OnDisk(Start(c, disk).value)
  {
  }

  lemma ExitStaysOnDisk(c: Config, s: State, a: Attempt)
    requires OnDisk(s) && !s.probing
    ensures OnDisk(Exit(c, s, a))
  {
    hide ReadPointer, Written, IsSafeVersion;
  }

  lemma TurnStaysOnDisk(c: Config, s: State, a: Attempt)
    requires OnDisk(s)
    ensures OnDisk(Turn(c, s, a))
  {
    hide ReadPointer, Written, IsSafeVersion, BecomesHealthy, Exit, Restoring;
    if !s.stopped && !a.fault.Launching? {
      var s1 := Launch(s, a);
      if !s.probing {
        ExitStaysOnDisk(c, s1, a);
      } else if BecomesHealthy(a.ticks, Deadline(c, s.probeTimeout, a.start)) {
        if !a.fault.Probing? && !a.fault.Committing? && !a.fault.ReportingCommit? {
          ExitStaysOnDisk(c, Settled(s1, a.swallowed), a);
        }
      }
    }
  }

  /**
   Whatever fails, at each turn of the loop the disk holds the version to launch and the
   version to fall back to.
   */
  lemma {:induction false} DiskMirrorsMemory(c: Config, disk: Disk, attempts: seq<Attempt>)
    requires Start(c, disk).Some?
    ensures OnDisk(Run(c, Start(c, disk).value, attempts))
  {
    if attempts == [] {
      StartIsOnDisk(c, disk);
    } else {
      DiskMirrorsMemory(c, disk, attempts[..|attempts| - 1]);
      TurnStaysOnDisk(c, Run(c, Start(c, disk).value, attempts[..|attempts| - 1]), attempts[|attempts| - 1]);
    }
  }

  /** While an update is probed, `current` reads as the version launched exactly when that has no newline at its end. */
  lemma ProbedVersionIsOnDiskIff(c: Config, disk: Disk, attempts: seq<Attempt>)
    requires Start(c, disk).Some? && Run(c, Start(c, disk).value, attempts).probing
    ensures var s := Run(c, Start(c, disk).value, attempts);
            s.target != ""
            && (ReadPointer(s.disk.current) == Some(s.target) <==> s.target[|s.target| - 1] != '\n')
  {
    var s := Run(c, Start(c, disk).value, attempts);
    DiskMirrorsMemory(c, disk, attempts);
    SafeVersionsStayInside(s.target);
    SafeVersionRoundTrip(s.target);
  }

  /**
   A supervisor started again on the disk of one that died between turns resumes the same
   version with the same fallback; it takes the version for trusted, even in mid-probe.
   */
  lemma RestartResumes(c: Config, disk: Disk, attempts: seq<Attempt>)
    requires Start(c, disk).Some?
    requires var s := Run(c, Start(c, disk).value, attempts);
             && s.target != "" && Trimmed(s.target) && s.target[0] != BOM
             && s.lastGood != "" && Trimmed(s.lastGood) && s.lastGood[0] != BOM
    ensures var s := Run(c, Start(c, disk).value, attempts);
            var again := Start(c, s.disk);
            && again.Some? && again.value.target == s.target && again.value.lastGood == s.lastGood
            && !again.value.probing && again.value.disk == s.disk
  {
    var s := Run(c, Start(c, disk).value, attempts);
    DiskMirrorsMemory(c, disk, attempts);
    PointerRoundTrip(s.target);
    PointerRoundTrip(s.lastGood);
  }

  // ------------------------------------------------------ pointers that read back

  predicate Plain(version: string) {
    version != "" && Trimmed(version) && version[0] != BOM
  }

  /** A request that is accepted names a version without a newline at its end. */
  predicate AsksPlainly(a: Attempt) {
    a.late.pending.Some? && IsChecked(a.late.pending.value) ==>
      var v := a.late.pending.value.version.value; v != "" && v[|v| - 1] != '\n'
  }

  predicate PlainState(s: State) {
    Plain(s.target) && Plain(s.lastGood)
  }

  lemma SafeIsPlain(v: string)
    requires IsSafeVersion(v) && v != "" && v[|v| - 1] != '\n'
    ensures Plain(v)
  {
    SafeVersionRoundTrip(v);
    PointerRoundTrip(v);
  }

  lemma ExitStaysPlain(c: Config, s: State, a: Attempt)
    requires PlainState(s) && AsksPlainly(a)
    ensures PlainState(Exit(c, s, a))
  {
    if a.late.pending.Some? && IsChecked(a.late.pending.value) {
      SafeIsPlain(a.late.pending.value.version.value);
    }
    hide Plain, IsSafeVersion, Reason;
  }

  lemma TurnStaysPlain(c: Config, s: State, a: Attempt)
    requires PlainState(s) && AsksPlainly(a)
    ensures PlainState(Turn(c, s, a))
  {
    hide Plain, AsksPlainly, Exit, BecomesHealthy, Restoring;
    ExitStaysPlain(c, Launch(s, a), a);
    ExitStaysPlain(c, Settled(Launch(s, a), a.swallowed), a);
  }

  /**
   Whatever fails, as long as no version has a newline at its end, both pointers read
   back at each turn as the version to launch and the version to fall back to.
   */
  lemma {:induction false} PointersReadBack(c: Config, disk: Disk, attempts: seq<Attempt>)
    requires Start(c, disk).Some? && PlainState(Start(c, disk).value)
    requires forall a | a in attempts :: AsksPlainly(a)
    ensures var s := Run(c, Start(c, disk).value, attempts);
            && ReadPointer(s.disk.current) == Some(s.target) && ReadPointer(s.disk.lastGood) == Some(s.lastGood)
            && PlainState(s)
  {
    var s := Run(c, Start(c, disk).value, attempts);
    DiskMirrorsMemory(c, disk, attempts);
    if attempts != [] {
      PointersReadBack(c, disk, attempts[..|attempts| - 1]);
      TurnStaysPlain(c, Run(c, Start(c, disk).value, attempts[..|attempts| - 1]), attempts[|attempts| - 1]);
    }
    PointerRoundTrip(s.target);
    PointerRoundTrip(s.lastGood);
  }
}
