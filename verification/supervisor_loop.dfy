/**
 The supervisor as it is written: an object for the install root, whose methods replace
 its files, and one loop over the environment's answers, specified by `Supervisor.Run`.
 */
module SupervisorLoop {
  import opened Wrappers
  import opened Layout
  import opened Supervisor

  class InstallRoot {
    var current: Option<string>
    var lastGood: Option<string>
    var failed: set<string>
    var pending: Option<Pending>
    var result: Option<Report>
    var freeze: Option<string>
    var releases: set<string>

    ghost function View(): Disk
      reads this
    {
      Disk(current, lastGood, failed, pending, result, freeze, releases)
    }

    constructor (disk: Disk)
      ensures View() == disk
    {
      current, lastGood, failed, pending := disk.current, disk.lastGood, disk.failed, disk.pending;
      result, freeze, releases := disk.result, disk.freeze, disk.releases;
    }

    method SetCurrent(version: string)
      modifies this`current
      ensures View() == old(View()).(current := Some(Written(version)))
    {
      current := Some(Written(version));
    }

    method SetLastGood(version: string)
      modifies this`lastGood
      ensures View() == old(View()).(lastGood := Some(Written(version)))
    {
      lastGood := Some(Written(version));
    }

    method MarkFailed(version: string)
      modifies this`failed
      ensures View() == old(View()).(failed := old(failed) + {version})
    {
      failed := failed + {version};
    }

    method WriteResult(report: Report)
      modifies this`result
      ensures View() == old(View()).(result := Some(report))
    {
      result := Some(report);
    }

    /** Reads the pending update and removes it; it stays when the removal fails. */
    method TakePending(stays: bool) returns (request: Option<Pending>)
      modifies this`pending
      ensures request == old(pending) && View() == old(View()).(pending := if stays then old(pending) else None)
    {
      request := pending;
      if !stays {
        pending := None;
      }
    }

    /** Removes the snapshot; it stays when that fails. */
    method ClearFreeze(swallowed: Swallowed)
      modifies this`freeze
      ensures View() == old(View()).(freeze := Cleared(old(freeze), swallowed))
    {
      if !swallowed.snapshotStays {
        freeze := None;
      }
    }

    /** What the server has done to its own files by now. */
    method ServerWrote(files: Files)
      modifies this
      ensures View() == WithFiles(old(View()), files)
    {
      pending, freeze, releases := files.pending, files.freeze, files.releases;
    }
  }

  datatype Outcome = NothingToStart | Stopped(target: string) | MaxIterations(target: string)

  class Watchdog {
    const config: Config
    const layout: InstallRoot
    var target: string
    var lastGood: string
    var probing: bool
    var previous: Option<string>
    var backoff: real
    var probeTimeout: Option<real>
    ghost var trace: seq<Mark>

    ghost function View(stopped: bool): State
      reads this, layout
    {
      State(layout.View(), target, lastGood, probing, previous, backoff, probeTimeout, stopped, trace)
    }

    constructor (config: Config, layout: InstallRoot)
      ensures this.config == config && this.layout == layout && trace == []
    {
      this.config, this.layout := config, layout;
      target, lastGood, probing, previous := "", "", false, None;
      backoff, probeTimeout, trace := 1.0, None, [];
    }

    method BackOff()
      modifies this`backoff
      ensures View(false) == Retry(config, old(View(false)))
    {
      backoff := if config.maxBackoff <= backoff * 2.0 then config.maxBackoff else backoff * 2.0;
    }

    /** The pointers before the first launch; false when there is no version to start. */
    method Begin() returns (started: bool)
      requires trace == []
      modifies this, layout
      ensures started <==> Start(config, old(layout.View())).Some?
      ensures started ==> View(false) == Start(config, old(layout.View())).value
    {
      var current := ReadPointer(layout.current);
      if current.Some? {
        target := current.value;
      } else if config.initialVersion.Some? && config.initialVersion.value != "" {
        target := config.initialVersion.value;
        layout.SetCurrent(target);
      } else {
        return false;
      }
      if ReadPointer(layout.lastGood) == None {
        layout.SetLastGood(target);
      }
      var good := ReadPointer(layout.lastGood);
      lastGood := if good.Some? then good.value else target;
      probing, previous, backoff, probeTimeout := false, None, 1.0, None;
      return true;
    }

    /** Best effort: a snapshot that cannot be read is left, and one that cannot be restored is removed all the same. */
    method RestoreVenv(swallowed: Swallowed)
      modifies this`trace, layout`freeze
      ensures layout.View() == old(layout.View()).(freeze := FreezeAfterRestore(old(layout.freeze), swallowed))
      ensures trace == old(trace) + Restoring(config, Found(old(layout.freeze), swallowed), !swallowed.restoreRaises)
    {
      assert trace + [] == trace;
      if layout.freeze == None || swallowed.snapshotUnreadable {
        return;
      }
      if config.restores {
        trace := trace + [Restored(layout.freeze.value, !swallowed.restoreRaises)];
      }
      layout.ClearFreeze(swallowed);
    }

    /** The probe has failed; false when an error struck before last-good was back. */
    method RollBackNow(a: Attempt) returns (done: bool)
      modifies this, layout
      ensures View(false) == RollBack(config, old(View(false)), a)
    {
      trace := trace + [Unhealthy(target, Found(layout.freeze, a.swallowed))];
      if a.fault.MarkingFailed? {
        BackOff();
        return false;
      }
      layout.MarkFailed(target);
      if a.fault.ReportingRollback? {
        BackOff();
        return false;
      }
      var report := Report(false, Some(target), previous, "health check failed; rolled back");
      layout.WriteResult(report);
      trace := trace + [Reported(report)];
      RestoreVenv(a.swallowed);
      if a.fault.SettingBack? {
        BackOff();
        return false;
      }
      layout.SetCurrent(lastGood);
      target := lastGood;
      probing := false;
      probeTimeout := None;
      return true;
    }

    /** The probe has passed; false when an error struck before the server was told. */
    method CommitNow(a: Attempt) returns (done: bool)
      modifies this, layout
      ensures done <==> !a.fault.Committing? && !a.fault.ReportingCommit?
      ensures done ==> View(false) == Settled(old(View(false)), a.swallowed)
      ensures !done ==> View(false) == Commit(config, old(View(false)), a)
    {
      trace := trace + [Healthy(target)];
      if a.fault.Committing? {
        BackOff();
        return false;
      }
      layout.SetLastGood(target);
      lastGood := target;
      trace := trace + [Committed(target)];
      if a.fault.ReportingCommit? {
        BackOff();
        return false;
      }
      var report := Report(true, Some(target), previous, "");
      layout.WriteResult(report);
      trace := trace + [Reported(report)];
      layout.ClearFreeze(a.swallowed);
      probing := false;
      probeTimeout := None;
      backoff := 1.0;
      return true;
    }

    /** The server has exited to have its pending update applied. */
    method ApplyNow(a: Attempt)
      modifies this, layout
      ensures View(false) == Apply(config, old(View(false)), a)
    {
      var request := layout.TakePending(a.swallowed.pendingStays);
      if request == None {
        return;
      }
      trace := trace + [Applying(request.value)];
      var version := request.value.version;
      if a.fault.CheckingRequest? && IsChecked(request.value) {
        BackOff();
        return;
      }
      if version.Some? && IsSafeVersion(version.value)
         && version.value !in layout.failed && version.value in layout.releases {
        previous := Some(target);
        if a.fault.SettingNew? {
          BackOff();
          return;
        }
        layout.SetCurrent(version.value);
        target := version.value;
        probing := true;
        probeTimeout := request.value.timeout;
        return;
      }
      if a.fault.ReportingRejection? {
        BackOff();
        return;
      }
      var reason;
      if version == None || !IsSafeVersion(version.value) {
        reason := "invalid version string in pending update";
      } else if version.value in layout.failed {
        reason := "version previously failed a health check";
      } else {
        reason := "release not staged";
      }
      var report := Report(false, version, Some(target), reason);
      layout.WriteResult(report);
      trace := trace + [Reported(report)];
      layout.ClearFreeze(a.swallowed);
    }

    /** Runs until the server stops or the answers, one a turn, run out. */
    method RunForever(attempts: seq<Attempt>) returns (outcome: Outcome)
      requires trace == []
      modifies this, layout
      ensures outcome == NothingToStart <==> Start(config, old(layout.View())).None?
      ensures outcome != NothingToStart ==>
                var s := Run(config, Start(config, old(layout.View())).value, attempts);
                && View(s.stopped) == s
                && outcome == if s.stopped then Stopped(target) else MaxIterations(target)
    {
      ghost var disk := layout.View();
      var started := Begin();
      if !started {
        return NothingToStart;
      }
      ghost var s0 := Start(config, disk).value;
      var i := 0;
      while i < |attempts|
        invariant 0 <= i <= |attempts|
        invariant View(false) == Run(config, s0, attempts[..i])
      {
        var a := attempts[i];
        i := i + 1;
        ghost var s := View(false);
        assert attempts[..i][..i - 1] == attempts[..i - 1];
        assert Run(config, s0, attempts[..i]) == Turn(config, s, a);
        if a.fault.Launching? {
          BackOff();
          continue;
        }
        trace := trace + [Launched(target, probing)];
        layout.ServerWrote(a.early);
        if probing {
          if a.fault.Probing? {
            BackOff();
            continue;
          }
          var healthy := AwaitHealth(a.ticks, Deadline(config, probeTimeout, a.start));
          if healthy {
            var done := CommitNow(a);
            if !done {
              continue;
            }
          } else {
            var _ := RollBackNow(a);
            continue;
          }
        }
        layout.ServerWrote(a.late);
        if a.fault.Waiting? {
          BackOff();
          continue;
        }
        if a.exit == EXIT_STOP {
          StoppedStays(config, s0, attempts, i);
          return Stopped(target);
        }
        if a.exit == EXIT_APPLY_UPDATE {
          ApplyNow(a);
          continue;
        }
        if a.ranFor > config.maxBackoff {
          backoff := 1.0;
        }
        BackOff();
      }
      assert attempts[..i] == attempts;
      return MaxIterations(target);
    }
  }

  /** Once the server has stopped cleanly, further answers are not asked for. */
  lemma {:induction false} StoppedStays(c: Config, s0: State, attempts: seq<Attempt>, i: nat)
    requires i <= |attempts| && Run(c, s0, attempts[..i]).stopped
    ensures Run(c, s0, attempts) == Run(c, s0, attempts[..i])
  {
    if i == |attempts| {
      assert attempts[..i] == attempts;
    } else {
      assert attempts[..|attempts| - 1][..i] == attempts[..i];
      StoppedStays(c, s0, attempts[..|attempts| - 1], i);
    }
  }
}
