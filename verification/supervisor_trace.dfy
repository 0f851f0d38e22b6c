/**
 What a supervisor (spawn.go) may do, as the traces it may leave: one event for every step that
 matters to the child, the hooks, the retry counter and the stop request, in the order they happen.
 The theorems hold of every trace the automaton accepts; the Supervisor class proves that loop()
 leaves no other.
 */
module SupervisorTrace {
  /** The parts of `spawnConfig`, and which hooks were passed. */
  datatype Config = Config(
    respawnEnabled: bool, keepAlive: bool, maxRetries: int, resetAfter: int, failOnResolve: bool,
    restartOnLiveness: bool, preStart: bool, postStart: bool, preStop: bool, postStop: bool,
    readiness: bool, liveness: bool)

  datatype Reason = ReasonSignalled | ReasonShutdown | ReasonExited

  datatype Result =
    | Exit(code: int, attempts: int, reason: Reason)
    | ResolveFailed | CommandNotFound | PreStartFailed | StartFailed | RunFailed(code: int) | RetriesExhausted

  /** Who ended an attempt: the child, by exiting; the supervisor, because health was lost; or because the
      context ended, and the reason as it stood then. */
  datatype Ending = ByItself | ByHealth | ByStop(reason: Reason)

  datatype Event =
    | StopRequested                  // requestStop sets the flag
    | ContextDone                    // the supervisor's context ends, by requestStop or by shutdown
    | LoopTop(sawDone: bool)
    | Resolved
    | PreStartRan
    | Started
    | MarkedUp
    | PostStartRan
    | Selected(ending: Ending)       // the case select picked
    | PreStopRan(detached: bool)
    | Terminated                     // SIGTERM
    | Killed                         // SIGKILL, after the grace period
    | Reaped(code: int)
    | MarkedDown(uptime: int)
    | PostStopRan(detached: bool)
    | CounterReset
    | BackedOff
    | Returned(result: Result)

  datatype Phase =
    | AtTop | Leaving | Resolving | HasArgv | Ready
    | Launched | Up | Running | Deciding | PreStopped | Terminating | Killing
    | Collected | Down | CleanedUp | Cleared | Finished

  /** Besides the phase: whether a stop was requested, whether the context has ended; of the last attempt who
      ended it, the child's exit code and how long it was up; backoffs since the retry counter was last
      reset, and all backoffs. */
  datatype State = State(
    phase: Phase, stop: bool, done: bool, ended: Ending, code: int, uptime: int, since: nat, backoffs: nat)

  const Fresh := State(AtTop, false, false, ByItself, 0, 0, 0, 0)

  predicate FromOutside(e: Event) {
    e.StopRequested? || e.ContextDone?
  }

  /** Ready to start the child: the argv is known and pre_start, if any, has passed. */
  predicate MayStart(c: Config, p: Phase) {
    p.Ready? || (p.HasArgv? && !c.preStart)
  }

  predicate IsRunning(c: Config, p: Phase) {
    p.Running? || (p.Up? && !c.postStart)
  }

  /** What stopReason says. */
  function StopReason(s: State): Reason {
    if s.stop then ReasonSignalled else ReasonShutdown
  }

  /** Readiness may have failed, or liveness been lost with a restart wanted. */
  predicate WatchesHealth(c: Config) {
    c.readiness || (c.liveness && c.restartOnLiveness)
  }

  predicate MaySelect(c: Config, s: State, ending: Ending) {
    && IsRunning(c, s.phase)
    && match ending
       case ByItself => true
       case ByHealth => WatchesHealth(c)
       case ByStop(reason) => s.done && reason == StopReason(s)
  }

  predicate MayTerminate(c: Config, s: State) {
    !s.ended.ByItself? && (s.phase.PreStopped? || (s.phase.Deciding? && !c.preStop))
  }

  /** The attempt is over and cleaned up after. */
  predicate AttemptOver(c: Config, p: Phase) {
    p.CleanedUp? || p.Cleared? || (p.Down? && !c.postStop)
  }

  /** ... and the counter has been reset if it was to be. */
  predicate Settled(c: Config, s: State) {
    AttemptOver(c, s.phase) && (s.uptime >= c.resetAfter <==> s.phase.Cleared?)
  }

  /** After an attempt the loop goes round: always if health was lost, never if it was torn down, and after an
      exit as the respawn settings say. */
  predicate GoesRound(c: Config, s: State) {
    match s.ended
    case ByItself => c.respawnEnabled && (s.code != 0 || c.keepAlive)
    case ByHealth => true
    case ByStop(_) => false
  }

  /** A resolve that failed and may be retried, or an attempt that is over and is to be. */
  predicate MayBackOff(c: Config, s: State) {
    || (s.phase.Resolving? && c.respawnEnabled && !c.failOnResolve)
    || (Settled(c, s) && GoesRound(c, s))
  }

  /** Why the loop may stop now: the reason an attempt was torn down for, or that of a context found ended. */
  predicate MayStop(c: Config, s: State, reason: Reason) {
    if AttemptOver(c, s.phase) && s.ended.ByStop? then reason == s.ended.reason
    else s.done && reason == StopReason(s)
  }

  predicate MayReturn(c: Config, s: State, r: Result) {
    match r
    case Exit(code, attempts, reason) =>
      && attempts == s.since
      && (s.phase.Leaving? || s.phase.Resolving? || s.phase.HasArgv? || AttemptOver(c, s.phase))
      && code == (if AttemptOver(c, s.phase) then s.code else 0)
      && if reason.ReasonExited? then Settled(c, s) && s.ended.ByItself? && !GoesRound(c, s) && code == 0
         else MayStop(c, s, reason)
    case ResolveFailed => s.phase.Resolving? && (!c.respawnEnabled || c.failOnResolve) && !s.done
    case CommandNotFound => s.phase.HasArgv?
    case PreStartFailed => s.phase.HasArgv? && c.preStart && !s.done
    case StartFailed => MayStart(c, s.phase)
    case RunFailed(code) => Settled(c, s) && s.ended.ByItself? && !GoesRound(c, s) && code == s.code != 0
    case RetriesExhausted => MayBackOff(c, s)
  }

  /** Whether event `e` may come next. */
  predicate Allowed(c: Config, s: State, e: Event) {
    !s.phase.Finished?
    && match e
       case StopRequested => true
       case ContextDone => true
       case LoopTop(sawDone) => s.phase.AtTop? && sawDone == s.done
       case Resolved => s.phase.Resolving?
       case PreStartRan => s.phase.HasArgv? && c.preStart
       case Started => MayStart(c, s.phase)
       case MarkedUp => s.phase.Launched?
       case PostStartRan => s.phase.Up? && c.postStart
       case Selected(ending) => MaySelect(c, s, ending)
       case PreStopRan(detached) =>
         s.phase.Deciding? && c.preStop && !s.ended.ByItself? && (detached <==> s.ended.ByStop?)
       case Terminated => MayTerminate(c, s)
       case Killed => s.phase.Terminating?
       case Reaped(_) => (s.phase.Deciding? && s.ended.ByItself?) || s.phase.Terminating? || s.phase.Killing?
       case MarkedDown(_) => s.phase.Collected?
       case PostStopRan(detached) => s.phase.Down? && c.postStop && detached == s.done
       case CounterReset => s.uptime >= c.resetAfter && (s.phase.CleanedUp? || (s.phase.Down? && !c.postStop))
       case BackedOff => MayBackOff(c, s) && (c.maxRetries > 0 ==> s.since < c.maxRetries)
       case Returned(r) => MayReturn(c, s, r)
  }

  function NextPhase(p: Phase, e: Event): Phase {
    match e
    case StopRequested => p
    case ContextDone => p
    case LoopTop(sawDone) => if sawDone then Leaving else Resolving
    case Resolved => HasArgv
    case PreStartRan => Ready
    case Started => Launched
    case MarkedUp => Up
    case PostStartRan => Running
    case Selected(_) => Deciding
    case PreStopRan(_) => PreStopped
    case Terminated => Terminating
    case Killed => Killing
    case Reaped(_) => Collected
    case MarkedDown(_) => Down
    case PostStopRan(_) => CleanedUp
    case CounterReset => Cleared
    case BackedOff => AtTop
    case Returned(_) => Finished
  }

  function Moved(s: State, e: Event): State {
    State(NextPhase(s.phase, e),
          s.stop || e.StopRequested?,
          s.done || e.ContextDone?,
          if e.Selected? then e.ending else s.ended,
          if e.Reaped? then e.code else s.code,
          if e.MarkedDown? then e.uptime else s.uptime,
          if e.CounterReset? then 0 else if e.BackedOff? then s.since + 1 else s.since,
          if e.BackedOff? then s.backoffs + 1 else s.backoffs)
  }

  ghost predicate Step(c: Config, s: State, e: Event, s': State) {
    Allowed(c, s, e) && s' == Moved(s, e)
  }

  /** Events `es` may happen in this order; `ss` are the states between them. */
  ghost predicate IsTrace(c: Config, ss: seq<State>, es: seq<Event>) {
    && |ss| == |es| + 1
    && ss[0] == Fresh
    && forall i {:trigger es[i]} :: 0 <= i < |es| ==> Step(c, ss[i], es[i], ss[i + 1])
  }

  lemma TraceStep(c: Config, ss: seq<State>, es: seq<Event>, i: nat)
    requires IsTrace(c, ss, es) && i < |es|
    ensures Step(c, ss[i], es[i], ss[i + 1])
  {
  }

  // ---- one child at a time ----

  /** The kinds of event that are counted. */
  datatype Kind = Start | Reap | Raise | Lower | Backoff | Top | Other

  function KindOf(e: Event): Kind {
    match e
    case Started => Start
    case Reaped(_) => Reap
    case MarkedUp => Raise
    case MarkedDown(_) => Lower
    case BackedOff => Backoff
    case LoopTop(_) => Top
    case _ => Other
  }

  /** Events of kind `k` among the first `n`. */
  function Count(es: seq<Event>, n: nat, k: Kind): nat
    requires n <= |es|
  {
    if n == 0 then 0 else Count(es, n - 1, k) + (if KindOf(es[n - 1]) == k then 1 else 0)
  }

  predicate ChildExists(p: Phase) {
    p.Launched? || p.Up? || p.Running? || p.Deciding? || p.PreStopped? || p.Terminating? || p.Killing?
  }

  predicate MarkedUpIn(p: Phase) {
    p.Up? || p.Running? || p.Deciding? || p.PreStopped? || p.Terminating? || p.Killing? || p.Collected?
  }

  function Indicator(b: bool): int {
    if b then 1 else 0
  }

  /** What one step does to the number of children, to up and down, and to the place in the loop. */
  lemma StepBalance(c: Config, s: State, e: Event)
    requires Allowed(c, s, e)
    ensures var p, p', k := s.phase, Moved(s, e).phase, KindOf(e);
            && Indicator(ChildExists(p')) == Indicator(ChildExists(p)) + Indicator(k == Start) - Indicator(k == Reap)
            && Indicator(MarkedUpIn(p')) == Indicator(MarkedUpIn(p)) + Indicator(k == Raise) - Indicator(k == Lower)
            && Indicator(p'.Launched?) == Indicator(p.Launched?) + Indicator(k == Start) - Indicator(k == Raise)
            && Indicator(!p'.AtTop?) == Indicator(!p.AtTop?) + Indicator(k == Top) - Indicator(k == Backoff)
  {
  }

  /** At every point of a trace all children started but at most one have been reaped, exactly the
      running one is missing, and up and down alternate with it; once the supervisor has returned,
      every child has been reaped and marked down. */
  lemma {:induction false} OneChildAtATime(c: Config, ss: seq<State>, es: seq<Event>, n: nat)
    requires IsTrace(c, ss, es) && n <= |es|
    ensures Count(es, n, Start) == Count(es, n, Reap) + Indicator(ChildExists(ss[n].phase))
    ensures Count(es, n, Raise) == Count(es, n, Lower) + Indicator(MarkedUpIn(ss[n].phase))
    ensures Count(es, n, Start) == Count(es, n, Raise) + Indicator(ss[n].phase.Launched?)
    ensures ss[n].phase.Finished? ==>
              Count(es, n, Start) == Count(es, n, Reap) == Count(es, n, Raise) == Count(es, n, Lower)
  {
    if n > 0 {
      OneChildAtATime(c, ss, es, n - 1);
      TraceStep(c, ss, es, n - 1);
      StepBalance(c, ss[n - 1], es[n - 1]);
    }
  }

  // ---- the order of an attempt ----

  /** The place of an event within one attempt; 0 for events outside it. */
  function Place(e: Event): nat {
    match e
    case Started => 1
    case MarkedUp => 2
    case PostStartRan => 3
    case Selected(_) => 4
    case PreStopRan(_) => 5
    case Terminated => 6
    case Killed => 7
    case Reaped(_) => 8
    case MarkedDown(_) => 9
    case PostStopRan(_) => 10
    case CounterReset => 11
    case _ => 0
  }

  /** The last place taken in the attempt under way; 0 before a child is started, 12 after the return. */
  function Reached(p: Phase): nat {
    match p
    case Launched => 1
    case Up => 2
    case Running => 3
    case Deciding => 4
    case PreStopped => 5
    case Terminating => 6
    case Killing => 7
    case Collected => 8
    case Down => 9
    case CleanedUp => 10
    case Cleared => 11
    case Finished => 12
    case _ => 0
  }

  /** A step that is not a start never goes back within an attempt; it goes on, or leaves it. */
  lemma StepGoesOn(c: Config, s: State, e: Event)
    requires Allowed(c, s, e)
    ensures Place(e) > 0 ==> Place(e) == Reached(Moved(s, e).phase)
    ensures !e.Started? ==>
              && (Reached(s.phase) in {0, 12} ==> Reached(Moved(s, e).phase) in {0, 12})
              && (Reached(Moved(s, e).phase) >= Reached(s.phase) || Reached(Moved(s, e).phase) == 0)
              && (Place(e) > 0 ==> 0 < Reached(s.phase) < Place(e))
  {
  }

  /** Without a new start, an attempt only moves forward. */
  lemma {:induction false} AttemptGoesOn(c: Config, ss: seq<State>, es: seq<Event>, i: nat, j: nat)
    requires IsTrace(c, ss, es) && i <= j <= |es|
    requires forall x :: i <= x < j ==> !es[x].Started?
    ensures Reached(ss[j].phase) >= Reached(ss[i].phase) || Reached(ss[j].phase) in {0, 12}
  {
    if i < j {
      AttemptGoesOn(c, ss, es, i, j - 1);
      TraceStep(c, ss, es, j - 1);
      StepGoesOn(c, ss[j - 1], es[j - 1]);
    }
  }

  /** Within one attempt every event happens at most once and in this order: start, up, post_start, select,
      pre_stop, SIGTERM, SIGKILL, reap, down, post_stop, counter reset. */
  lemma AttemptIsOrdered(c: Config, ss: seq<State>, es: seq<Event>, i: nat, j: nat)
    requires IsTrace(c, ss, es) && i < j < |es|
    requires Place(es[i]) > 0 && Place(es[j]) > 0
    requires forall x :: i < x <= j ==> !es[x].Started?
    ensures Place(es[i]) < Place(es[j])
  {
    TraceStep(c, ss, es, i);
    StepGoesOn(c, ss[i], es[i]);
    AttemptGoesOn(c, ss, es, i + 1, j);
    TraceStep(c, ss, es, j);
    StepGoesOn(c, ss[j], es[j]);
  }

  /** While only requests come from outside, the phase stays. */
  lemma {:induction false} PhaseStays(c: Config, ss: seq<State>, es: seq<Event>, i: nat, j: nat)
    requires IsTrace(c, ss, es) && i <= j <= |es|
    requires forall x :: i <= x < j ==> FromOutside(es[x])
    ensures ss[j].phase == ss[i].phase && ss[j].ended == ss[i].ended
  {
    if i < j {
      PhaseStays(c, ss, es, i, j - 1);
      TraceStep(c, ss, es, j - 1);
    }
  }

  /** What an event is followed by, requests from outside apart: pre_stop by SIGTERM, a reaped child by
      its being marked down, and that by post_stop when there is one; and after select, a child that has
      exited by itself is reaped, and any other sent pre_stop if there is one and SIGTERM if not.  On a
      teardown, and then only, pre_stop is detached. */
  lemma WhatFollows(c: Config, ss: seq<State>, es: seq<Event>, i: nat, j: nat)
    requires IsTrace(c, ss, es) && i < j < |es| && !FromOutside(es[j])
    requires forall x :: i < x < j ==> FromOutside(es[x])
    ensures es[i].PreStopRan? ==> es[j].Terminated?
    ensures es[i].Reaped? ==> es[j].MarkedDown?
    ensures es[i].MarkedDown? && c.postStop ==> es[j].PostStopRan?
    ensures es[i].Selected? ==>
              match es[i].ending
              case ByItself => es[j].Reaped?
              case ByHealth => es[j] == if c.preStop then PreStopRan(false) else Terminated
              case ByStop(_) => es[j] == if c.preStop then PreStopRan(true) else Terminated
  {
    TraceStep(c, ss, es, i);
    PhaseStays(c, ss, es, i + 1, j);
    TraceStep(c, ss, es, j);
  }

  /** When there is a pre_stop, SIGTERM is sent only right after it: together with WhatFollows, it runs
      exactly when the supervisor rather than the child ends the attempt. */
  lemma TerminateFollowsPreStop(c: Config, ss: seq<State>, es: seq<Event>, j: nat)
    requires IsTrace(c, ss, es) && j < |es| && es[j].Terminated? && c.preStop
    ensures exists i :: 0 <= i < j && es[i].PreStopRan? && forall x :: i < x < j ==> FromOutside(es[x])
  {
    TraceStep(c, ss, es, j);
    var i := LastChange(c, ss, es, j);
    TraceStep(c, ss, es, i);
  }

  /** The event that led to the present phase. */
  lemma {:induction false} LastChange(c: Config, ss: seq<State>, es: seq<Event>, n: nat) returns (i: nat)
    requires IsTrace(c, ss, es) && n <= |es| && !ss[n].phase.AtTop?
    ensures i < n && !FromOutside(es[i]) && ss[i + 1].phase == ss[n].phase
    ensures forall x :: i < x < n ==> FromOutside(es[x])
  {
    TraceStep(c, ss, es, n - 1);
    if FromOutside(es[n - 1]) {
      i := LastChange(c, ss, es, n - 1);
    } else {
      i := n - 1;
    }
  }

  // ---- what an attempt leads to ----

  /** An attempt whose end has been decided is being wound up. */
  predicate WindingUp(p: Phase) {
    Reached(p) in {4, 5, 6, 7, 8, 9, 10, 11}
  }

  lemma StepWindsUp(c: Config, s: State, e: Event)
    requires Allowed(c, s, e) && WindingUp(s.phase) && !e.BackedOff? && !e.Returned?
    ensures WindingUp(Moved(s, e).phase) && Moved(s, e).ended == s.ended && (s.done ==> Moved(s, e).done)
  {
  }

  lemma {:induction false} WindsUp(c: Config, ss: seq<State>, es: seq<Event>, i: nat, j: nat)
    requires IsTrace(c, ss, es) && i < j <= |es| && es[i].Selected?
    requires forall x :: i < x < j ==> !es[x].BackedOff? && !es[x].Returned?
    ensures WindingUp(ss[j].phase) && ss[j].ended == es[i].ending && (es[i].ending.ByStop? ==> ss[j].done)
  {
    TraceStep(c, ss, es, j - 1);
    if i < j - 1 {
      WindsUp(c, ss, es, i, j - 1);
      StepWindsUp(c, ss[j - 1], es[j - 1]);
    }
  }

  /** What an attempt leads to, once select has picked its end.  Lost health is never reported as an exit or
      a failed run: unless the context has ended meanwhile it is followed by a backoff or by exhausted
      retries.  A teardown always returns, with the reason as it stood.  A child that exited by itself is
      retried only with respawn enabled and a failure or keep_alive. */
  lemma WhatAnAttemptLeadsTo(c: Config, ss: seq<State>, es: seq<Event>, i: nat, j: nat)
    requires IsTrace(c, ss, es) && i < j < |es| && es[i].Selected? && (es[j].BackedOff? || es[j].Returned?)
    requires forall x :: i < x < j ==> !es[x].BackedOff? && !es[x].Returned?
    ensures es[j].Returned? ==> es[j].result.Exit? || es[j].result.RunFailed? || es[j].result.RetriesExhausted?
    ensures match es[i].ending
            case ByHealth =>
              || es[j].BackedOff? || es[j] == Returned(RetriesExhausted)
              || (es[j].result.Exit? && !es[j].result.reason.ReasonExited? && ss[j].done)
            case ByStop(reason) => es[j].Returned? && es[j].result.Exit? && es[j].result.reason == reason
            case ByItself =>
              var retried := c.respawnEnabled && (ss[j].code != 0 || c.keepAlive);
              && (es[j].BackedOff? || es[j] == Returned(RetriesExhausted) ==> retried)
              && (es[j].Returned? && es[j].result.RunFailed? ==> !retried)
              && (es[j].Returned? && es[j].result.Exit? && es[j].result.reason.ReasonExited? ==> !retried)
  {
    WindsUp(c, ss, es, i, j);
    TraceStep(c, ss, es, j);
  }

  lemma StepKeepsCode(c: Config, s: State, e: Event)
    requires Allowed(c, s, e) && Reached(s.phase) in {8, 9, 10, 11} && !e.BackedOff? && !e.Returned?
    ensures Reached(Moved(s, e).phase) in {8, 9, 10, 11} && Moved(s, e).code == s.code
  {
  }

  lemma {:induction false} CodeStays(c: Config, ss: seq<State>, es: seq<Event>, i: nat, j: nat)
    requires IsTrace(c, ss, es) && i < j <= |es| && es[i].Reaped?
    requires forall x :: i < x < j ==> !es[x].BackedOff? && !es[x].Returned?
    ensures Reached(ss[j].phase) in {8, 9, 10, 11} && ss[j].code == es[i].code
  {
    TraceStep(c, ss, es, j - 1);
    if i < j - 1 {
      CodeStays(c, ss, es, i, j - 1);
      StepKeepsCode(c, ss[j - 1], es[j - 1]);
    }
  }

  /** The code reported after an attempt is the one its child was reaped with. */
  lemma ReportedCodeIsTheChilds(c: Config, ss: seq<State>, es: seq<Event>, i: nat, j: nat)
    requires IsTrace(c, ss, es) && i < j < |es| && es[i].Reaped? && es[j].Returned?
    requires forall x :: i < x < j ==> !es[x].BackedOff? && !es[x].Returned?
    ensures es[j].result.Exit? || es[j].result.RunFailed? ==> es[j].result.code == es[i].code
  {
    CodeStays(c, ss, es, i, j);
    TraceStep(c, ss, es, j);
  }

  // ---- stop requests ----

  lemma {:induction false} FlagsMatchTrace(c: Config, ss: seq<State>, es: seq<Event>, n: nat)
    requires IsTrace(c, ss, es) && n <= |es|
    ensures ss[n].stop <==> exists i :: 0 <= i < n && es[i].StopRequested?
    ensures ss[n].done <==> exists i :: 0 <= i < n && es[i].ContextDone?
  {
    if n > 0 {
      FlagsMatchTrace(c, ss, es, n - 1);
      TraceStep(c, ss, es, n - 1);
    }
  }

  /** Once the context has ended, the next top of the loop sees it, and nothing but the return follows. */
  lemma {:induction false} NothingAfterTheNextTop(c: Config, ss: seq<State>, es: seq<Event>, i: nat, k: nat, j: nat)
    requires IsTrace(c, ss, es) && i < k < j < |es| && es[i].ContextDone? && es[k].LoopTop?
    ensures es[k].sawDone && (FromOutside(es[j]) || (es[j].Returned? && es[j].result.Exit?))
    ensures ss[j].phase.Leaving?
    decreases j
  {
    FlagsMatchTrace(c, ss, es, k);
    TraceStep(c, ss, es, k);
    TraceStep(c, ss, es, j - 1);
    TraceStep(c, ss, es, j);
    if j - 1 > k {
      NothingAfterTheNextTop(c, ss, es, i, k, j - 1);
    }
  }

  /** After the context has ended, at most one further child is started: a second start would need a
      second top of the loop. */
  lemma AtMostOneMoreStart(c: Config, ss: seq<State>, es: seq<Event>, i: nat, j: nat, k: nat)
    requires IsTrace(c, ss, es) && i < j < k < |es| && es[i].ContextDone? && es[j].Started?
    ensures !es[k].Started?
  {
    TraceStep(c, ss, es, k);
    if es[k].Started? {
      var x := TopBetween(c, ss, es, j, k);
      NothingAfterTheNextTop(c, ss, es, i, x, k);
    }
  }

  predicate BeforeStart(p: Phase) {
    p.Resolving? || p.HasArgv? || p.Ready?
  }

  lemma EntersBeforeStart(c: Config, s: State, e: Event)
    requires Allowed(c, s, e) && BeforeStart(Moved(s, e).phase) && !e.LoopTop?
    ensures BeforeStart(s.phase) && !e.Started?
  {
  }

  /** Two starts have a top of the loop between them. */
  lemma {:induction false} TopBetween(c: Config, ss: seq<State>, es: seq<Event>, j: nat, k: nat) returns (x: nat)
    requires IsTrace(c, ss, es) && j < k < |es| && es[j].Started? && BeforeStart(ss[k].phase)
    ensures j < x < k && es[x].LoopTop?
  {
    TraceStep(c, ss, es, k - 1);
    if es[k - 1].LoopTop? {
      x := k - 1;
    } else {
      EntersBeforeStart(c, ss[k - 1], es[k - 1]);
      x := TopBetween(c, ss, es, j, k - 1);
    }
  }

  /** "signalled" is reported only after a stop request, "shutdown" only after the context has ended. */
  lemma ReasonsAreTrue(c: Config, ss: seq<State>, es: seq<Event>, j: nat)
    requires IsTrace(c, ss, es) && j < |es| && es[j].Returned? && es[j].result.Exit?
    ensures es[j].result.reason.ReasonSignalled? ==> exists i :: 0 <= i < j && es[i].StopRequested?
    ensures !es[j].result.reason.ReasonExited? ==> exists i :: 0 <= i < j && es[i].ContextDone?
  {
    TraceStep(c, ss, es, j);
    FlagsMatchTrace(c, ss, es, j);
    if AttemptOver(c, ss[j].phase) && ss[j].ended.ByStop? {
      var i := SelectedWhen(c, ss, es, j);
      TraceStep(c, ss, es, i);
      FlagsMatchTrace(c, ss, es, i);
    }
  }

  /** A failed resolve is retried only with respawn enabled and resolve_failure not "fail", and raised only
      otherwise, while the context lasts. */
  lemma WhatAFailedResolveLeadsTo(c: Config, ss: seq<State>, es: seq<Event>, i: nat, j: nat)
    requires IsTrace(c, ss, es) && i < j < |es| && es[i].LoopTop? && (es[j].BackedOff? || es[j].Returned?)
    requires forall x :: i < x < j ==> FromOutside(es[x])
    ensures es[j].BackedOff? || es[j] == Returned(RetriesExhausted) ==>
              !es[i].sawDone && c.respawnEnabled && !c.failOnResolve
    ensures es[j] == Returned(ResolveFailed) ==>
              !(c.respawnEnabled && !c.failOnResolve) && forall x :: 0 <= x < j ==> !es[x].ContextDone?
    ensures es[j].Returned? ==>
              es[j].result.RetriesExhausted? || es[j].result.ResolveFailed?
              || (es[j].result.Exit? && es[j].result.code == 0 && !es[j].result.reason.ReasonExited?)
  {
    TraceStep(c, ss, es, i);
    PhaseStays(c, ss, es, i + 1, j);
    TraceStep(c, ss, es, j);
    FlagsMatchTrace(c, ss, es, j);
  }

  lemma {:induction false} SelectedWhen(c: Config, ss: seq<State>, es: seq<Event>, n: nat) returns (i: nat)
    requires IsTrace(c, ss, es) && n <= |es| && !ss[n].ended.ByItself?
    ensures i < n && es[i] == Selected(ss[n].ended)
  {
    TraceStep(c, ss, es, n - 1);
    if es[n - 1].Selected? {
      i := n - 1;
    } else {
      i := SelectedWhen(c, ss, es, n - 1);
    }
  }

  /** "shutdown" is reported only if no stop had been requested by the time the end of the context was seen:
      at the select of the attempt it tore down, or at the return itself. */
  lemma ShutdownMeansNoStopThen(c: Config, ss: seq<State>, es: seq<Event>, j: nat) returns (i: nat)
    requires IsTrace(c, ss, es) && j < |es| && es[j].Returned? && es[j].result.Exit?
    requires es[j].result.reason.ReasonShutdown?
    ensures i <= j && (i == j || es[i] == Selected(ByStop(ReasonShutdown)))
    ensures forall x :: 0 <= x < i ==> !es[x].StopRequested?
  {
    TraceStep(c, ss, es, j);
    i := j;
    if AttemptOver(c, ss[j].phase) && ss[j].ended.ByStop? {
      i := SelectedWhen(c, ss, es, j);
      TraceStep(c, ss, es, i);
    }
    FlagsMatchTrace(c, ss, es, i);
  }

  // ---- retries ----

  /** Backoffs among the first `n` events, since the last counter reset. */
  function SinceReset(es: seq<Event>, n: nat): nat
    requires n <= |es|
  {
    if n == 0 || es[n - 1].CounterReset? then 0
    else SinceReset(es, n - 1) + (if es[n - 1].BackedOff? then 1 else 0)
  }

  lemma StepCounts(c: Config, s: State, e: Event)
    requires Allowed(c, s, e)
    ensures Moved(s, e).backoffs == s.backoffs + Indicator(e.BackedOff?)
    ensures Moved(s, e).since == if e.CounterReset? then 0 else s.since + Indicator(e.BackedOff?)
    ensures c.maxRetries > 0 && s.since <= c.maxRetries ==> Moved(s, e).since <= c.maxRetries
    ensures KindOf(e) == Backoff <==> e.BackedOff?
  {
  }

  /** The counters in the state count what the trace shows, and the retry limit holds at every point. */
  lemma {:induction false} CountersMatchTrace(c: Config, ss: seq<State>, es: seq<Event>, n: nat)
    requires IsTrace(c, ss, es) && n <= |es|
    ensures ss[n].backoffs == Count(es, n, Backoff) && ss[n].since == SinceReset(es, n)
    ensures c.maxRetries > 0 ==> SinceReset(es, n) <= c.maxRetries
  {
    if n > 0 {
      CountersMatchTrace(c, ss, es, n - 1);
      TraceStep(c, ss, es, n - 1);
      StepCounts(c, ss[n - 1], es[n - 1]);
    }
  }

  /** Every top of the loop but the first was reached by a backoff. */
  lemma {:induction false} TriesFollowBackoffs(c: Config, ss: seq<State>, es: seq<Event>, n: nat)
    requires IsTrace(c, ss, es) && n <= |es|
    ensures Count(es, n, Top) == Count(es, n, Backoff) + Indicator(!ss[n].phase.AtTop?)
  {
    if n > 0 {
      TriesFollowBackoffs(c, ss, es, n - 1);
      TraceStep(c, ss, es, n - 1);
      StepBalance(c, ss[n - 1], es[n - 1]);
    }
  }

  lemma {:induction false} WithoutAReset(es: seq<Event>, n: nat)
    requires n <= |es| && forall i :: 0 <= i < n ==> !es[i].CounterReset?
    ensures SinceReset(es, n) == Count(es, n, Backoff)
  {
    if n > 0 {
      WithoutAReset(es, n - 1);
    }
  }

  /** The attempt was up for reset_after or longer. */
  predicate Lasted(c: Config, e: Event) {
    e.MarkedDown? && e.uptime >= c.resetAfter
  }

  /** The counter is only ever reset after an attempt that lasted. */
  lemma {:induction false} ResetsNeedALongAttempt(c: Config, ss: seq<State>, es: seq<Event>, n: nat)
    requires IsTrace(c, ss, es) && n <= |es|
    requires forall i :: 0 <= i < n ==> !Lasted(c, es[i])
    ensures Reached(ss[n].phase) in {9, 10, 11} ==> ss[n].uptime < c.resetAfter
    ensures forall i :: 0 <= i < n ==> !es[i].CounterReset?
  {
    if n > 0 {
      ResetsNeedALongAttempt(c, ss, es, n - 1);
      TraceStep(c, ss, es, n - 1);
      assert !Lasted(c, es[n - 1]);
    }
  }

  /** With no attempt up for reset_after, there are at most max_retries + 1 tries. */
  lemma TriesAreBounded(c: Config, ss: seq<State>, es: seq<Event>)
    requires IsTrace(c, ss, es) && c.maxRetries > 0
    requires forall i :: 0 <= i < |es| ==> !Lasted(c, es[i])
    ensures Count(es, |es|, Top) <= c.maxRetries + 1
  {
    ResetsNeedALongAttempt(c, ss, es, |es|);
    CountersMatchTrace(c, ss, es, |es|);
    TriesFollowBackoffs(c, ss, es, |es|);
    WithoutAReset(es, |es|);
  }

  /** An attempt that lasted and is followed by another, or by an exit of its own, has reset the counter. */
  lemma LongAttemptResets(c: Config, ss: seq<State>, es: seq<Event>, j: nat)
    requires IsTrace(c, ss, es) && j < |es| && AttemptOver(c, ss[j].phase)
    requires es[j].BackedOff? || (es[j].Returned? && es[j].result.Exit? && es[j].result.reason.ReasonExited?)
    ensures ss[j].uptime >= c.resetAfter <==> exists i :: 0 <= i < j && es[i].CounterReset?
                                                    && forall x :: i < x < j ==> FromOutside(es[x])
  {
    TraceStep(c, ss, es, j);
    if ss[j].uptime >= c.resetAfter {
      var i := LastChange(c, ss, es, j);
      TraceStep(c, ss, es, i);
    } else if i :| 0 <= i < j && es[i].CounterReset? && forall x :: i < x < j ==> FromOutside(es[x]) {
      TraceStep(c, ss, es, i);
      PhaseStays(c, ss, es, i + 1, j);
    }
  }

  /** The count an exit reports is that of the backoffs since the last reset, not of all respawns. */
  lemma ReportedCountIsSinceReset(c: Config, ss: seq<State>, es: seq<Event>, j: nat)
    requires IsTrace(c, ss, es) && j < |es| && es[j].Returned? && es[j].result.Exit?
    ensures es[j].result.attempts == SinceReset(es, j) <= Count(es, j, Backoff)
  {
    TraceStep(c, ss, es, j);
    CountersMatchTrace(c, ss, es, j);
    SinceResetIsPartial(es, j);
  }

  const Plain: Config :=
    Config(true, false, 0, 0, false, false, false, false, false, false, false, false)

  /** The first resolve fails; the second finds a command that runs for long. */
  function OneRespawn(i: nat): Event {
    match i
    case 0 => LoopTop(false)
    case 1 => BackedOff
    case 2 => LoopTop(false)
    case 3 => Resolved
    case 4 => Started
    case 5 => MarkedUp
    case 6 => Selected(ByItself)
    case 7 => Reaped(0)
    case 8 => MarkedDown(5)
    case 9 => CounterReset
    case _ => Returned(Exit(0, 0, ReasonExited))
  }

  /** The state before event `i`. */
  function Along(i: nat): State {
    match i
    case 0 => Fresh
    case 1 => State(Resolving, false, false, ByItself, 0, 0, 0, 0)
    case 2 => State(AtTop, false, false, ByItself, 0, 0, 1, 1)
    case 3 => State(Resolving, false, false, ByItself, 0, 0, 1, 1)
    case 4 => State(HasArgv, false, false, ByItself, 0, 0, 1, 1)
    case 5 => State(Launched, false, false, ByItself, 0, 0, 1, 1)
    case 6 => State(Up, false, false, ByItself, 0, 0, 1, 1)
    case 7 => State(Deciding, false, false, ByItself, 0, 0, 1, 1)
    case 8 => State(Collected, false, false, ByItself, 0, 0, 1, 1)
    case 9 => State(Down, false, false, ByItself, 0, 5, 1, 1)
    case 10 => State(Cleared, false, false, ByItself, 0, 5, 0, 1)
    case _ => State(Finished, false, false, ByItself, 0, 5, 0, 1)
  }

  lemma StepAlong(i: nat)
    requires i < 11
    ensures Step(Plain, Along(i), OneRespawn(i), Along(i + 1))
  {
  }

  lemma {:induction false} OneBackoff(es: seq<Event>, n: nat)
    requires |es| == 11 && n <= 11 && forall i {:trigger es[i]} :: 0 <= i < 11 ==> es[i] == OneRespawn(i)
    ensures Count(es, n, Backoff) == if n < 2 then 0 else 1
  {
    if n > 0 {
      OneBackoff(es, n - 1);
      assert es[n - 1] == OneRespawn(n - 1);
    }
  }

  /** A trace that respawns once and, after an attempt that lasted, exits reporting none. */
  lemma ExitReportsFewerThanRespawns() returns (ss: seq<State>, es: seq<Event>)
    ensures IsTrace(Plain, ss, es) && |es| == 11
    ensures es[10] == Returned(Exit(0, 0, ReasonExited)) && Count(es, 10, Backoff) == 1
  {
    ss, es := seq(12, i requires 0 <= i => Along(i)), seq(11, i requires 0 <= i => OneRespawn(i));
    forall i {:trigger es[i]} | 0 <= i < 11
      ensures Step(Plain, ss[i], es[i], ss[i + 1])
    {
      StepAlong(i);
    }
    OneBackoff(es, 10);
  }

  lemma {:induction false} SinceResetIsPartial(es: seq<Event>, n: nat)
    requires n <= |es|
    ensures SinceReset(es, n) <= Count(es, n, Backoff)
  {
    if n > 0 {
      SinceResetIsPartial(es, n - 1);
    }
  }
}
