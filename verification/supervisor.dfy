/**
 The supervisor's loop (spawn.go), statement by statement.  Script callbacks, child exits, `select`
 and the clock are nondeterministic, and a stop request or a shutdown may arrive before any of them.
 Every run of the loop leaves a trace SupervisorTrace allows, with the retry counter it implies.
 */
module Supervisor {
  import opened Wrappers
  import opened SupervisorTrace

  class Supervisor {
    const cfg: Config
    var stop: bool          // set by requestStop
    var done: bool          // the context has ended
    var attempts: int       // loop()'s own counter
    // workloadState
    var up: bool
    var pid: nat
    var respawnCount: nat
    // history
    ghost var es: seq<Event>
    ghost var ss: seq<State>
    ghost var now: State

    constructor (cfg: Config)
      ensures Valid() && AtLoopTop() && this.cfg == cfg && es == []
    {
      this.cfg := cfg;
      stop, done, attempts, up, pid, respawnCount := false, false, 0, false, 0, 0;
      es, ss, now := [], [Fresh], Fresh;
    }

    /** The history is a trace, and `now` is where it ends. */
    ghost predicate Linked()
      reads this`es, this`ss, this`now
    {
      IsTrace(cfg, ss, es) && ss[|es|] == now
    }

    /** The history is a trace, and the other fields are what it says they are. */
    ghost predicate Valid()
      reads this
    {
      && Linked()
      && now.stop == stop && now.done == done
      && (up <==> MarkedUpIn(now.phase)) && (up <==> pid > 0)
      && respawnCount == now.backoffs
    }

    /** At a loop head the counter is the number of backoffs since the last reset. */
    ghost predicate AtLoopTop()
      reads this
    {
      now.phase.AtTop? && attempts == now.since
    }

    /** `e` has just happened. */
    ghost method Note(e: Event)
      requires Linked() && Allowed(cfg, now, e)
      modifies this`es, this`ss, this`now
      ensures Linked() && now == Moved(old(now), e) && es == old(es) + [e]
    {
      now := Moved(now, e);
      es, ss := es + [e], ss + [now];
    }

    /** The loop stands in phase `p`, and nothing else has changed since `was` but by requests from outside. */
    ghost predicate Stands(p: Phase, was: State)
      reads this
    {
      Valid() && now == was.(phase := p, stop := stop, done := done) && (was.stop ==> stop) && (was.done ==> done)
    }

    /** The promise's signalFn: sets the flag, then ends the context. */
    method RequestStop()
      requires Valid() && !now.phase.Finished?
      modifies this`stop, this`done, this`es, this`ss, this`now
      ensures Stands(old(now).phase, old(now)) && stop && done
    {
      if !stop {
        stop := true;
        Note(StopRequested);
      }
      Cancel();
    }

    method Cancel()
      requires Valid() && !now.phase.Finished?
      modifies this`done, this`es, this`ss, this`now
      ensures Stands(old(now).phase, old(now)) && done
    {
      if !done {
        done := true;
        Note(ContextDone);
      }
    }

    /** Whatever arrives from outside before the next statement. */
    method Meanwhile()
      requires Valid() && !now.phase.Finished?
      modifies this`stop, this`done, this`es, this`ss, this`now
      ensures Stands(old(now).phase, old(now))
    {
      var shutdown: bool := *;
      if shutdown {
        Cancel();
      }
      var stopped: bool := *;
      if stopped {
        RequestStop();
      }
    }

    method GetStopReason() returns (reason: Reason)
      requires Valid()
      ensures reason == StopReason(now)
    {
      reason := if stop then ReasonSignalled else ReasonShutdown;
    }

    /** The loop has returned `r`. */
    ghost predicate Left(r: Result)
      reads this
    {
      Valid() && now.phase.Finished? && !up && es != [] && es[|es| - 1] == Returned(r)
    }

    method Return(r: Result) returns (result: Option<Result>)
      requires Valid() && Allowed(cfg, now, Returned(r))
      modifies this`es, this`ss, this`now
      ensures result == Some(r) && Left(r)
    {
      Note(Returned(r));
      result := Some(r);
    }

    /** Counts the attempt and waits, unless the retries are exhausted. */
    method DoBackoff() returns (exhausted: bool, backoffStops: bool)
      requires Valid() && attempts == now.since && MayBackOff(cfg, now)
      modifies this`attempts, this`respawnCount, this`stop, this`done, this`es, this`ss, this`now
      ensures Valid()
      ensures !exhausted ==> AtLoopTop() && respawnCount == old(respawnCount) + 1
      ensures exhausted ==> now == old(now)
      ensures exhausted <==> backoffStops || (cfg.maxRetries != 0 && old(attempts) >= cfg.maxRetries)
    {
      attempts, backoffStops := attempts + 1, false;
      if cfg.maxRetries != 0 && attempts > cfg.maxRetries {
        return true, backoffStops;
      }
      backoffStops := *;   // NextBackOff returned Stop
      if backoffStops {
        return true, backoffStops;
      }
      respawnCount := respawnCount + 1;
      Note(BackedOff);
      Meanwhile();
      return false, false;
    }

    /** cmd.Start, setUp, and post_start if there is one. */
    method Launch()
      requires Valid() && MayStart(cfg, now.phase)
      modifies this`up, this`pid, this`stop, this`done, this`es, this`ss, this`now
      ensures IsRunning(cfg, now.phase)
      ensures Stands(now.phase, old(now))
    {
      Note(Started);
      var child: nat :| child > 0;
      up, pid := true, child;
      Note(MarkedUp);
      Meanwhile();
      if cfg.postStart {
        Note(PostStartRan);   // its failure is only logged
        Meanwhile();
      }
    }

    method RunPreStop(detached: bool)
      requires Valid() && now.phase.Deciding? && !now.ended.ByItself? && (detached <==> now.ended.ByStop?)
      modifies this`stop, this`done, this`es, this`ss, this`now
      ensures MayTerminate(cfg, now)
      ensures Stands(now.phase, old(now))
    {
      if cfg.preStop {
        Note(PreStopRan(detached));
      }
      Meanwhile();
    }

    /** SIGTERM, the grace period, SIGKILL if need be, and the child is reaped. */
    method Terminate() returns (code: int)
      requires Valid() && MayTerminate(cfg, now)
      modifies this`stop, this`done, this`es, this`ss, this`now
      ensures Stands(Collected, old(now).(code := code))
    {
      Note(Terminated);
      Meanwhile();
      var lingers: bool := *;
      if lingers {
        Note(Killed);
        Meanwhile();
      }
      code := *;
      Note(Reaped(code));
    }

    method SetDown(uptime: int)
      requires Valid() && now.phase.Collected?
      modifies this`up, this`pid, this`es, this`ss, this`now
      ensures Stands(Down, old(now).(uptime := uptime))
    {
      up, pid := false, 0;
      Note(MarkedDown(uptime));
    }

    method RunPostStop(detached: bool)
      requires Valid() && now.phase.Down? && detached == done
      modifies this`stop, this`done, this`es, this`ss, this`now
      ensures AttemptOver(cfg, now.phase) && !now.phase.Cleared?
      ensures Stands(now.phase, old(now))
    {
      if cfg.postStop {
        Note(PostStopRan(detached));
      }
      Meanwhile();
    }

    /** The check at the top of the loop. */
    method CheckTop() returns (result: Option<Result>)
      requires Valid() && AtLoopTop()
      modifies this`stop, this`done, this`es, this`ss, this`now
      ensures result.Some? ==> Left(result.value) && result.value.Exit?
      ensures result.None? ==> Stands(Resolving, old(now)) && !old(done)
    {
      Meanwhile();
      Note(LoopTop(done));
      if done {
        var reason := GetStopReason();
        result := Return(Exit(0, attempts, reason));
      } else {
        result := None;
      }
    }

    /** resolve() and the command lookup: a result, or whether there is an argv (otherwise a failed
        resolve has been backed off and the loop starts over). */
    method ResolveCommand() returns (result: Option<Result>, resolved: bool)
      requires Valid() && now.phase.Resolving? && attempts == now.since
      modifies this`attempts, this`respawnCount, this`stop, this`done, this`es, this`ss, this`now
      ensures result.Some? ==> Left(result.value) && !resolved
      ensures resolved ==> Stands(HasArgv, old(now)) && attempts == now.since
      ensures result.None? && !resolved ==> Valid() && AtLoopTop() && respawnCount == old(respawnCount) + 1
      ensures (result.None? && !resolved) || result == Some(RetriesExhausted) ==>
                cfg.respawnEnabled && !cfg.failOnResolve
      ensures result == Some(ResolveFailed) ==> !done && (!cfg.respawnEnabled || cfg.failOnResolve)
    {
      resolved := *;
      result := None;
      Meanwhile();
      if !resolved {
        if done {
          var reason := GetStopReason();
          result := Return(Exit(0, attempts, reason));
        } else if !cfg.respawnEnabled || cfg.failOnResolve {
          result := Return(ResolveFailed);
        } else {
          var exhausted, _ := DoBackoff();
          if exhausted {
            result := Return(RetriesExhausted);
          }
        }
        return;
      }
      Note(Resolved);
      var commandFound: bool := *;
      if !commandFound {
        result := Return(CommandNotFound);
        resolved := false;
      }
    }

    /** pre_start, the only hard gate, and the start itself. */
    method StartChild() returns (result: Option<Result>)
      requires Valid() && now.phase.HasArgv? && attempts == now.since
      modifies this`up, this`pid, this`stop, this`done, this`es, this`ss, this`now
      ensures result.Some? ==> Left(result.value) && (result.value == PreStartFailed ==> cfg.preStart && !done)
      ensures result.None? ==> IsRunning(cfg, now.phase)
                               && Stands(now.phase, old(now))
    {
      result := None;
      if cfg.preStart {
        var ok: bool := *;
        Meanwhile();
        if !ok {
          var reason := GetStopReason();
          result := Return(if done then Exit(0, attempts, reason) else PreStartFailed);
          return;
        }
        Note(PreStartRan);
        Meanwhile();
      }
      var launches: bool := *;
      if !launches {
        result := Return(StartFailed);
        return;
      }
      Launch();
    }

    /** The `select` over shutdown, failed readiness, lost liveness and the child's exit, and what each
        leads to up to the child being reaped.  `torn` is the reason when the loop will return. */
    method AwaitEnd() returns (code: int, healthTriggered: bool, torn: Option<Reason>)
      requires Valid() && IsRunning(cfg, now.phase)
      modifies this`stop, this`done, this`es, this`ss, this`now
      ensures Stands(Collected, old(now).(ended := now.ended, code := code))
      ensures Matches(healthTriggered, torn) && (torn.Some? ==> done && !torn.value.ReasonExited?)
    {
      healthTriggered, torn := false, None;
      Meanwhile();
      var ready: int := *;   // select picks any case that is ready
      if ready == 0 && done {
        var reason := GetStopReason();
        torn := Some(reason);
        Note(Selected(ByStop(reason)));
        Meanwhile();
        RunPreStop(true);
        code := Terminate();
      } else if ready == 1 && WatchesHealth(cfg) {
        Note(Selected(ByHealth));
        healthTriggered := true;
        Meanwhile();
        RunPreStop(false);
        code := Terminate();
      } else {
        Note(Selected(ByItself));
        code := *;
        Note(Reaped(code));
      }
    }

    /** The loop's own variables agree on who ended the attempt. */
    ghost predicate Matches(healthTriggered: bool, torn: Option<Reason>)
      reads this`now
    {
      && (healthTriggered <==> now.ended.ByHealth?)
      && (torn.Some? <==> now.ended.ByStop?) && (torn.Some? ==> now.ended.reason == torn.value)
    }

    /** After the child has been reaped: hooks, the counter reset, and whether to go round again. */
    method Conclude(code: int, healthTriggered: bool, torn: Option<Reason>) returns (result: Option<Result>)
      requires Valid() && now.phase.Collected? && attempts == now.since && now.code == code
      requires Matches(healthTriggered, torn) && (torn.Some? ==> done && !torn.value.ReasonExited?)
      modifies this
      ensures result.Some? ==> Left(result.value)
      ensures result.None? ==> Valid() && AtLoopTop() && respawnCount == old(respawnCount) + 1
                               && GoesRound(cfg, old(now))
      ensures torn.Some? ==> result == Some(Exit(code, old(attempts), torn.value))
      ensures old(done) ==> result.Some? && result.value.Exit? && result.value.code == code
    {
      var uptime: int := *;
      SetDown(uptime);
      RunPostStop(torn.Some? || done);
      if torn.Some? {
        result := Return(Exit(code, attempts, torn.value));
        return;
      }
      if done {
        var reason := GetStopReason();
        result := Return(Exit(code, attempts, reason));
        return;
      }
      ResetIf(uptime >= cfg.resetAfter);
      result := GoRound(code, healthTriggered);
    }

    method ResetIf(lasted: bool)
      requires Valid() && AttemptOver(cfg, now.phase) && !now.phase.Cleared?
      requires (lasted <==> now.uptime >= cfg.resetAfter) && attempts == now.since
      modifies this`attempts, this`es, this`ss, this`now
      ensures Valid() && Settled(cfg, now) && attempts == now.since && attempts == (if lasted then 0 else old(attempts))
      ensures now == old(now).(phase := now.phase, since := now.since)
    {
      if lasted {
        attempts := 0;
        Note(CounterReset);
      }
    }

    method GoRound(code: int, healthTriggered: bool) returns (result: Option<Result>)
      requires Valid() && Settled(cfg, now) && attempts == now.since && now.code == code
      requires Matches(healthTriggered, None)
      modifies this
      ensures result.Some? ==> Left(result.value)
      ensures result.None? ==> Valid() && AtLoopTop() && respawnCount == old(respawnCount) + 1
      ensures GoesRound(cfg, old(now)) ==> result.None? || result == Some(RetriesExhausted)
      ensures !GoesRound(cfg, old(now)) ==>
                result == Some(if code != 0 then RunFailed(code) else Exit(0, old(attempts), ReasonExited))
    {
      if !healthTriggered {
        if !cfg.respawnEnabled {
          result := Return(if code != 0 then RunFailed(code) else Exit(code, attempts, ReasonExited));
          return;
        }
        if code == 0 && !cfg.keepAlive {
          result := Return(Exit(0, attempts, ReasonExited));
          return;
        }
      }
      var exhausted, _ := DoBackoff();
      if exhausted {
        result := Return(RetriesExhausted);
      } else {
        result := None;
      }
    }

    /** One pass of the loop. */
    method Pass() returns (result: Option<Result>)
      requires Valid() && AtLoopTop()
      modifies this
      ensures result.Some? ==> Left(result.value)
      ensures result.None? ==> Valid() && AtLoopTop() && respawnCount == old(respawnCount) + 1
      ensures old(done) ==> result.Some? && result.value.Exit?
    {
      result := CheckTop();
      if result.Some? {
        return;
      }
      var resolved: bool;
      result, resolved := ResolveCommand();
      if result.Some? || !resolved {
        return;
      }
      result := StartChild();
      if result.Some? {
        return;
      }
      var code, healthTriggered, torn := AwaitEnd();
      result := Conclude(code, healthTriggered, torn);
    }

    /** The loop, for at most `passes` passes: a result, or none if it would still go on.  With a retry
        limit and no attempt up for reset_after, it has returned by pass limit + 1. */
    method Loop(passes: nat) returns (result: Option<Result>)
      requires Valid() && AtLoopTop() && es == [] && respawnCount == 0
      modifies this
      ensures Valid()
      ensures result.Some? ==> Left(result.value)
      ensures result.None? ==> AtLoopTop() && respawnCount == passes
      ensures AtLoopTop() ==> attempts == SinceReset(es, |es|) && respawnCount == Count(es, |es|, Backoff)
                              && (cfg.maxRetries > 0 ==> attempts <= cfg.maxRetries)
      ensures cfg.maxRetries > 0 && passes > cfg.maxRetries && (forall i :: 0 <= i < |es| ==> !Lasted(cfg, es[i]))
              ==> result.Some?
    {
      result := None;
      var n := 0;
      while n < passes && result.None?
        invariant n <= passes && Valid()
        invariant result.Some? ==> Left(result.value)
        invariant result.None? ==> AtLoopTop() && respawnCount == n
        decreases passes - n
      {
        result := Pass();
        n := n + 1;
      }
      CountersMatchTrace(cfg, ss, es, |es|);
      if forall i :: 0 <= i < |es| ==> !Lasted(cfg, es[i]) {
        ResetsNeedALongAttempt(cfg, ss, es, |es|);
        WithoutAReset(es, |es|);
      }
    }
  }
}
