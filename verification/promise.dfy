/**
 Promises (promise.go) and the task behind one (starlark_engine.go, spawnFunc): a settle-once future
 raced by cancel, signal, reject and its own task.  The class has the methods as the source writes
 them; the machine below interleaves their critical sections freely.
 */
module Promises {
  import opened Wrappers

  /** A Starlark value, as far as promises look at one. */
  datatype Value = NoneValue | Value(id: int, truth: bool) {
    predicate Truth() {
      Value? && truth
    }
  }

  type Error = string

  /** What a promise settles as. */
  datatype Outcome = Outcome(value: Value, err: Option<Error>)

  /** The fields behind the lock, how often the done channel was closed, and whether the backing task's
      context has been cancelled. */
  datatype Fields = Fields(settled: bool, canceling: bool, outcome: Outcome, closes: nat, taskCancelled: bool)

  const Unsettled := Fields(false, false, Outcome(NoneValue, None), 0, false)

  /** settle: the first outcome wins and closes the channel. */
  function Settle(f: Fields, o: Outcome): Fields {
    if f.settled then f else f.(settled := true, outcome := o, closes := f.closes + 1)
  }

  function Resolve(f: Fields, v: Value): Fields {
    Settle(f, Outcome(v, None))
  }

  function Reject(f: Fields, err: Error): Fields {
    Settle(f, Outcome(NoneValue, Some(err)))
  }

  /** How a promise came about, and so which ends of it a script can reach. */
  datatype Kind =
    | Bare(cancellable: bool, signallable: bool)   // promise()
    | Task(signallable: bool)                      // go(), poll(): always cancellable
    | Spawned                                      // spawn(): signallable, intercepted by signalFn

  predicate Cancellable(k: Kind) {
    k.Task? || (k.Bare? && k.cancellable)
  }

  /** Who may be cancelled: by a script what is cancellable, and by the harness, at shutdown, a main()
      promise that cannot be signalled, cancellable or not. */
  predicate MayCancel(k: Kind) {
    Cancellable(k) || !Signallable(k)
  }

  predicate Signallable(k: Kind) {
    k.Spawned? || k.signallable
  }

  /** What awaiting a promise comes to, at one instant. */
  datatype Waited = SettledAs(outcome: Outcome) | GaveUp | Blocks

  class Promise {
    const kind: Kind
    var settled: bool
    var canceling: bool
    var value: Value
    var err: Option<Error>
    var closes: nat            // of doneCh
    var taskCancelled: bool    // cancelFn was called
    var stopRequests: nat      // signalFn was called

    constructor (kind: Kind)
      ensures State() == Unsettled && this.kind == kind && stopRequests == 0
    {
      this.kind := kind;
      settled, canceling, value, err, closes, taskCancelled := false, false, NoneValue, None, 0, false;
      stopRequests := 0;
    }

    function State(): Fields
      reads this
    {
      Fields(settled, canceling, Outcome(value, err), closes, taskCancelled)
    }

    method SettleWith(v: Value, e: Option<Error>)
      modifies this
      ensures State() == Settle(old(State()), Outcome(v, e)) && stopRequests == old(stopRequests)
    {
      if settled {
        return;
      }
      settled := true;
      value, err := v, e;
      closes := closes + 1;
    }

    /** Through the closed channel, or by the context if that ends first; until then it blocks. */
    method Await(ctxEnded: bool) returns (r: Waited)
      ensures r.SettledAs? ==> settled && r.outcome == State().outcome
      ensures r.GaveUp? ==> ctxEnded
      ensures r.Blocks? <==> !settled && !ctxEnded
    {
      if !settled && !ctxEnded {
        return Blocks;
      }
      var channelFirst: bool := *;
      if settled && (channelFirst || !ctxEnded) {
        return SettledAs(Outcome(value, err));
      }
      return GaveUp;
    }

    method DoCancel()
      modifies this
      ensures State() == AfterCancel(AfterMark(old(State())), kind) && stopRequests == old(stopRequests)
    {
      canceling := true;
      if kind.Task? {
        taskCancelled := true;
      } else {
        SettleWith(NoneValue, None);
      }
    }

    method DoSignal(v: Value)
      modifies this
      ensures kind.Spawned? ==> State() == old(State()) && stopRequests == old(stopRequests) + 1
      ensures !kind.Spawned? ==>
                State() == AfterSettling(Resolve(old(State()), v), kind) && stopRequests == old(stopRequests)
    {
      if kind.Spawned? {
        stopRequests := stopRequests + 1;
        return;
      }
      SettleWith(v, None);
      if kind.Task? {
        taskCancelled := true;
      }
    }

    method DoReject(e: Error)
      modifies this
      ensures kind.Spawned? ==> State() == old(State()) && stopRequests == old(stopRequests) + 1
      ensures !kind.Spawned? ==>
                State() == AfterSettling(Reject(old(State()), e), kind) && stopRequests == old(stopRequests)
    {
      if kind.Spawned? {
        stopRequests := stopRequests + 1;
        return;
      }
      SettleWith(NoneValue, Some(e));
      if kind.Task? {
        taskCancelled := true;
      }
    }

    /** The goroutine of spawnFunc once its closure has returned. */
    method FinishTask(v: Value, e: Option<Error>)
      modifies this
      ensures State() == FinishedTask(old(State()), v, e, old(canceling))
    {
      if e.Some? {
        if canceling {
          SettleWith(NoneValue, None);
        } else {
          SettleWith(NoneValue, e);
        }
      } else {
        SettleWith(v, None);
      }
    }
  }

  // ---- the critical sections, one by one ----

  function AfterMark(f: Fields): Fields {
    f.(canceling := true)
  }

  /** doCancel after its locked section. */
  function AfterCancel(f: Fields, k: Kind): Fields {
    if k.Task? then f.(taskCancelled := true) else Settle(f, Outcome(NoneValue, None))
  }

  /** doSignal and doReject after they have settled. */
  function AfterSettling(f: Fields, k: Kind): Fields {
    if k.Task? then f.(taskCancelled := true) else f
  }

  /** The task settles what it decided on when it looked at `canceling`. */
  function FinishedTask(f: Fields, v: Value, e: Option<Error>, sawCancel: bool): Fields {
    if e.None? then Resolve(f, v) else if sawCancel then Resolve(f, NoneValue) else Reject(f, e.value)
  }

  /** Everyone who acts on one promise, and how far each has got. */
  datatype Actor =
    | TaskRunning
    | TaskReturned(v: Value, e: Option<Error>)
    | TaskExamined(v: Value, e: Option<Error>, sawCancel: bool)
    | CancelCalled
    | CancelMarked
    | SignalCalled(v: Value)
    | RejectCalled(reason: Error)
    | SignalSettled
    | Awaiting
    | Awaited(o: Outcome)
    | SupervisorRunning
    | Idle

  datatype World = World(p: Fields, actors: map<nat, Actor>, stopRequests: nat)

  /** A step of actor `id`; a task returns `v`, `e`, a supervisor settles with them. */
  datatype Action = Join(id: nat, actor: Actor) | Act(id: nat, v: Value, e: Option<Error>)

  /** Who may turn up, given the promise's kind. */
  predicate MayJoin(k: Kind, a: Actor) {
    match a
    case TaskRunning => k.Task?
    case CancelCalled => MayCancel(k)
    case SignalCalled(_) => Signallable(k)
    case RejectCalled(_) => Signallable(k)
    case Awaiting => true
    case SupervisorRunning => k.Spawned?
    case _ => false
  }

  predicate Enabled(k: Kind, w: World, a: Action) {
    match a
    case Join(id, actor) => id !in w.actors && MayJoin(k, actor)
    case Act(id, _, _) =>
      id in w.actors && !w.actors[id].Idle? && !w.actors[id].Awaited? && (w.actors[id].Awaiting? ==> w.p.closes > 0)
  }

  function To(w: World, id: nat, actor: Actor): World {
    w.(actors := w.actors[id := actor])
  }

  function Apply(k: Kind, w: World, a: Action): World
    requires Enabled(k, w, a)
  {
    match a
    case Join(id, actor) => To(w, id, actor)
    case Act(id, v, e) =>
      match w.actors[id]
      case TaskRunning => To(w, id, TaskReturned(v, e))
      case TaskReturned(v, e) => To(w, id, TaskExamined(v, e, w.p.canceling))
      case TaskExamined(v, e, sawCancel) => To(w, id, Idle).(p := FinishedTask(w.p, v, e, sawCancel))
      case CancelCalled => To(w, id, CancelMarked).(p := AfterMark(w.p))
      case CancelMarked => To(w, id, Idle).(p := AfterCancel(w.p, k))
      case SignalCalled(v) =>
        if k.Spawned? then To(w, id, Idle).(stopRequests := w.stopRequests + 1)
        else To(w, id, SignalSettled).(p := Resolve(w.p, v))
      case RejectCalled(reason) =>
        if k.Spawned? then To(w, id, Idle).(stopRequests := w.stopRequests + 1)
        else To(w, id, SignalSettled).(p := Reject(w.p, reason))
      case SignalSettled => To(w, id, Idle).(p := AfterSettling(w.p, k))
      case Awaiting => To(w, id, Awaited(w.p.outcome))
      case Awaited(_) => w
      case SupervisorRunning => To(w, id, Idle).(p := Settle(w.p, Outcome(if e.Some? then NoneValue else v, e)))
      case Idle => w
  }

  ghost predicate Step(k: Kind, w: World, a: Action, w': World) {
    Enabled(k, w, a) && w' == Apply(k, w, a)
  }

  ghost predicate IsRun(k: Kind, ws: seq<World>, acts: seq<Action>) {
    && |ws| == |acts| + 1
    && ws[0] == World(Unsettled, map[], 0)
    && forall i {:trigger acts[i]} :: 0 <= i < |acts| ==> Step(k, ws[i], acts[i], ws[i + 1])
  }

  ghost predicate Inv(w: World) {
    && w.p.closes == (if w.p.settled then 1 else 0)
    && (forall id :: id in w.actors && w.actors[id].Awaited? ==> w.p.settled && w.actors[id].o == w.p.outcome)
  }

  lemma StepKeepsInv(k: Kind, w: World, a: Action, w': World)
    requires Inv(w) && Step(k, w, a, w')
    ensures Inv(w')
    ensures w.p.settled ==> w'.p.settled && w'.p.outcome == w.p.outcome
  {
  }

  lemma {:induction false} RunKeepsInv(k: Kind, ws: seq<World>, acts: seq<Action>, n: nat)
    requires IsRun(k, ws, acts) && n < |ws|
    ensures Inv(ws[n])
  {
    if n > 0 {
      RunKeepsInv(k, ws, acts, n - 1);
      assert Step(k, ws[n - 1], acts[n - 1], ws[n]);
      StepKeepsInv(k, ws[n - 1], acts[n - 1], ws[n]);
    }
  }

  /** The first settle fixes the outcome forever, and the channel is closed exactly once. */
  lemma {:induction false} FirstSettleWins(k: Kind, ws: seq<World>, acts: seq<Action>, i: nat, j: nat)
    requires IsRun(k, ws, acts) && i <= j < |ws| && ws[i].p.settled
    ensures ws[j].p.settled && ws[j].p.outcome == ws[i].p.outcome && ws[j].p.closes == 1
  {
    RunKeepsInv(k, ws, acts, j);
    if i < j {
      FirstSettleWins(k, ws, acts, i, j - 1);
      RunKeepsInv(k, ws, acts, j - 1);
      assert Step(k, ws[j - 1], acts[j - 1], ws[j]);
      StepKeepsInv(k, ws[j - 1], acts[j - 1], ws[j]);
    }
  }

  /** Whoever awaits, and whenever, sees the same outcome. */
  lemma AwaitersAgree(k: Kind, ws: seq<World>, acts: seq<Action>, i: nat, id1: nat, j: nat, id2: nat)
    requires IsRun(k, ws, acts) && i <= j < |ws|
    requires id1 in ws[i].actors && ws[i].actors[id1].Awaited? && id2 in ws[j].actors && ws[j].actors[id2].Awaited?
    ensures ws[i].actors[id1].o == ws[j].actors[id2].o
  {
    RunKeepsInv(k, ws, acts, i);
    RunKeepsInv(k, ws, acts, j);
    FirstSettleWins(k, ws, acts, i, j);
  }

  /** Step `n` settles the promise. */
  predicate Settles(ws: seq<World>, n: nat)
    requires n + 1 < |ws|
  {
    !ws[n].p.settled && ws[n + 1].p.settled
  }

  lemma {:induction false} ExaminedHistory(k: Kind, ws: seq<World>, acts: seq<Action>, n: nat, id: nat)
    returns (j: nat)
    requires IsRun(k, ws, acts) && n < |ws| && id in ws[n].actors && ws[n].actors[id].TaskExamined?
    ensures j < n && id in ws[j].actors
    ensures var x := ws[n].actors[id];
            && ws[j].actors[id] == TaskReturned(x.v, x.e) && ws[j].p.canceling == x.sawCancel
            && acts[j].Act? && acts[j].id == id
  {
    assert Step(k, ws[n - 1], acts[n - 1], ws[n]);
    if acts[n - 1].Act? && acts[n - 1].id == id {
      j := n - 1;
    } else {
      j := ExaminedHistory(k, ws, acts, n - 1, id);
    }
  }

  /** How a failed task settles is decided when it looks at `canceling`: with None if a cancel had been
      recorded by then, since an intentional cancel must not raise, and with its error if not. */
  lemma FailedTaskRejectsIffUncancelledWhenItLooked(k: Kind, ws: seq<World>, acts: seq<Action>, n: nat, id: nat)
    returns (j: nat)
    requires IsRun(k, ws, acts) && n + 1 < |ws| && Settles(ws, n)
    requires acts[n].Act? && acts[n].id == id && id in ws[n].actors
    requires ws[n].actors[id].TaskExamined? && ws[n].actors[id].e.Some?
    ensures j < n && acts[j].Act? && acts[j].id == id && id in ws[j].actors && ws[j].actors[id].TaskReturned?
    ensures ws[n + 1].p.outcome == Outcome(NoneValue, if ws[j].p.canceling then None else ws[n].actors[id].e)
  {
    assert Step(k, ws[n], acts[n], ws[n + 1]);
    j := ExaminedHistory(k, ws, acts, n, id);
  }

  lemma Then(k: Kind, ws: seq<World>, acts: seq<Action>, a: Action) returns (ws': seq<World>, acts': seq<Action>)
    requires IsRun(k, ws, acts) && Enabled(k, ws[|ws| - 1], a)
    ensures IsRun(k, ws', acts') && ws' == ws + [Apply(k, ws[|ws| - 1], a)] && acts' == acts + [a]
  {
    ws', acts' := ws + [Apply(k, ws[|ws| - 1], a)], acts + [a];
  }

  /** A run in which a cancel is recorded while the promise is unsettled, and its failed task, having looked
      before, rejects it all the same. */
  lemma LateCancelStillRejects()
    ensures exists ws: seq<World>, acts: seq<Action> ::
              && IsRun(Task(false), ws, acts) && |ws| == 7
              && ws[5].p.canceling && Settles(ws, 5) && ws[6].p.outcome.err.Some?
  {
    var k, e := Task(false), Some("refused");
    var ws, acts := [World(Unsettled, map[], 0)], [];
    ws, acts := Then(k, ws, acts, Join(0, TaskRunning));
    ws, acts := Then(k, ws, acts, Act(0, NoneValue, e));
    ws, acts := Then(k, ws, acts, Act(0, NoneValue, None));
    ws, acts := Then(k, ws, acts, Join(1, CancelCalled));
    ws, acts := Then(k, ws, acts, Act(1, NoneValue, None));
    ws, acts := Then(k, ws, acts, Act(0, NoneValue, None));
  }

  lemma {:induction false} ReturnedHistory(k: Kind, ws: seq<World>, acts: seq<Action>, n: nat, id: nat) returns (i: nat)
    requires IsRun(k, ws, acts) && n < |ws| && id in ws[n].actors && ws[n].actors[id].TaskReturned?
    ensures i < n && id in ws[i].actors && ws[i].actors[id].TaskRunning?
    ensures acts[i] == Act(id, ws[n].actors[id].v, ws[n].actors[id].e)
  {
    assert Step(k, ws[n - 1], acts[n - 1], ws[n]);
    if acts[n - 1].Act? && acts[n - 1].id == id {
      i := n - 1;
    } else {
      i := ReturnedHistory(k, ws, acts, n - 1, id);
    }
  }

  /** With what a promise settles.  A task gives the value it returned, in its own return step `i`, when it
      returned no error, and else its error or None; a signal gives its value, a reject its reason, a
      supervisor what it returned, and a cancel None. */
  lemma WhatItSettlesWith(k: Kind, ws: seq<World>, acts: seq<Action>, n: nat) returns (i: nat)
    requires IsRun(k, ws, acts) && n + 1 < |ws| && Settles(ws, n)
    ensures acts[n].Act? && acts[n].id in ws[n].actors
    ensures var id, o := acts[n].id, ws[n + 1].p.outcome;
            match ws[n].actors[id]
            case TaskExamined(_, _, _) =>
              && i < n && id in ws[i].actors && ws[i].actors[id].TaskRunning? && acts[i].Act? && acts[i].id == id
              && (acts[i].e.None? ==> o == Outcome(acts[i].v, None))
              && (acts[i].e.Some? ==> o.value == NoneValue && (o.err == acts[i].e || o.err == None))
            case SignalCalled(v) => o == Outcome(v, None)
            case RejectCalled(reason) => o == Outcome(NoneValue, Some(reason))
            case SupervisorRunning => o.err == acts[n].e && o.value == if acts[n].e.Some? then NoneValue else acts[n].v
            case CancelMarked => o == Outcome(NoneValue, None)
            case _ => false
  {
    assert Step(k, ws[n], acts[n], ws[n + 1]);
    i := 0;
    if ws[n].actors[acts[n].id].TaskExamined? {
      var j := ExaminedHistory(k, ws, acts, n, acts[n].id);
      i := ReturnedHistory(k, ws, acts, j, acts[n].id);
    }
  }

  lemma {:induction false} SettledWhen(k: Kind, ws: seq<World>, acts: seq<Action>, j: nat) returns (n: nat)
    requires IsRun(k, ws, acts) && j < |ws| && ws[j].p.settled
    ensures n < j && Settles(ws, n) && ws[n + 1].p.outcome == ws[j].p.outcome
  {
    if ws[j - 1].p.settled {
      n := SettledWhen(k, ws, acts, j - 1);
      FirstSettleWins(k, ws, acts, j - 1, j);
    } else {
      n := j - 1;
    }
  }

  /** Whoever awaits gets what the promise was settled with. */
  lemma AwaitersGetWhatSettled(k: Kind, ws: seq<World>, acts: seq<Action>, j: nat, id: nat) returns (n: nat)
    requires IsRun(k, ws, acts) && j < |ws| && id in ws[j].actors && ws[j].actors[id].Awaited?
    ensures n < j && Settles(ws, n) && ws[j].actors[id].o == ws[n + 1].p.outcome
  {
    RunKeepsInv(k, ws, acts, j);
    n := SettledWhen(k, ws, acts, j);
  }

  // ---- what a cancel, a signal and a reject have done once they are over ----

  /** A cancel that is over has cancelled the task's context, or settled a promise without a task. */
  lemma {:induction false} CancelTakesEffect(k: Kind, ws: seq<World>, acts: seq<Action>, i: nat, j: nat, id: nat)
    requires IsRun(k, ws, acts) && i <= j < |ws| && id in ws[i].actors && ws[i].actors[id].CancelCalled?
    ensures id in ws[j].actors
    ensures ws[j].actors[id].CancelCalled? || ws[j].actors[id].CancelMarked? || ws[j].actors[id].Idle?
    ensures !ws[j].actors[id].CancelCalled? ==> ws[j].p.canceling
    ensures ws[j].actors[id].Idle? ==> if k.Task? then ws[j].p.taskCancelled else ws[j].p.settled
  {
    if i < j {
      CancelTakesEffect(k, ws, acts, i, j - 1, id);
      assert Step(k, ws[j - 1], acts[j - 1], ws[j]);
    }
  }

  /** A signal or a reject that is over has asked a supervisor to stop, or settled the promise and cancelled
      the task's context if it has one. */
  lemma {:induction false} SignalTakesEffect(k: Kind, ws: seq<World>, acts: seq<Action>, i: nat, j: nat, id: nat)
    requires IsRun(k, ws, acts) && i <= j < |ws| && id in ws[i].actors
    requires ws[i].actors[id].SignalCalled? || ws[i].actors[id].RejectCalled?
    ensures id in ws[j].actors
    ensures ws[j].actors[id] == ws[i].actors[id] || ws[j].actors[id].SignalSettled? || ws[j].actors[id].Idle?
    ensures ws[j].actors[id].SignalSettled? ==> ws[j].p.settled && !k.Spawned?
    ensures ws[j].actors[id].Idle? ==>
              if k.Spawned? then ws[j].stopRequests > 0 else ws[j].p.settled && (k.Task? ==> ws[j].p.taskCancelled)
  {
    if i < j {
      SignalTakesEffect(k, ws, acts, i, j - 1, id);
      assert Step(k, ws[j - 1], acts[j - 1], ws[j]);
    }
  }

  /** In step `n` an actor that is to cancel the task, having cancelled, signalled or rejected, acts. */
  predicate StopsTask(ws: seq<World>, acts: seq<Action>, n: nat)
    requires n < |ws| && n < |acts|
  {
    && acts[n].Act? && acts[n].id in ws[n].actors
    && (ws[n].actors[acts[n].id].CancelMarked? || ws[n].actors[acts[n].id].SignalSettled?)
  }

  predicate CancelsFirst(ws: seq<World>, acts: seq<Action>, n: nat)
    requires n < |ws| && n < |acts|
  {
    acts[n].Act? && acts[n].id in ws[n].actors && ws[n].actors[acts[n].id].CancelCalled?
  }

  /** The task's context is cancelled, and a cancel recorded, by nothing else. */
  lemma {:induction false} MarksHaveCauses(k: Kind, ws: seq<World>, acts: seq<Action>, j: nat)
    requires IsRun(k, ws, acts) && j < |ws|
    ensures ws[j].p.taskCancelled <==> k.Task? && exists n: nat :: n < j && StopsTask(ws, acts, n)
    ensures ws[j].p.canceling <==> exists n: nat :: n < j && CancelsFirst(ws, acts, n)
  {
    if j > 0 {
      MarksHaveCauses(k, ws, acts, j - 1);
      assert Step(k, ws[j - 1], acts[j - 1], ws[j]);
      assert StopsTask(ws, acts, j - 1) || !StopsTask(ws, acts, j - 1);
      assert CancelsFirst(ws, acts, j - 1) || !CancelsFirst(ws, acts, j - 1);
    }
  }

  /** Who settles: a spawn() promise only its supervisor, which signal and reject merely ask to stop; a
      promise nobody can signal only its task, or a cancel if it has none. */
  lemma OnlyItsOwnSettles(k: Kind, ws: seq<World>, acts: seq<Action>, n: nat)
    requires IsRun(k, ws, acts) && n + 1 < |ws| && Settles(ws, n)
    ensures acts[n].Act? && acts[n].id in ws[n].actors
    ensures var who := ws[n].actors[acts[n].id];
            && (k.Spawned? <==> who.SupervisorRunning?)
            && (k.Task? && !k.signallable ==> who.TaskExamined?)
            && (k.Bare? && !k.signallable ==> who.CancelMarked? && ws[n + 1].p.outcome == Outcome(NoneValue, None))
  {
    assert Step(k, ws[n], acts[n], ws[n + 1]);
    ActorsFitTheKind(k, ws, acts, n);
    assert Fits(k, ws[n].actors[acts[n].id]);
  }

  /** Actors never step outside what the promise's kind lets them be. */
  predicate Fits(k: Kind, a: Actor) {
    match a
    case TaskRunning => k.Task?
    case TaskReturned(_, _) => k.Task?
    case TaskExamined(_, _, _) => k.Task?
    case CancelCalled => MayCancel(k)
    case CancelMarked => MayCancel(k)
    case SignalCalled(_) => Signallable(k)
    case RejectCalled(_) => Signallable(k)
    case SignalSettled => Signallable(k) && !k.Spawned?
    case SupervisorRunning => k.Spawned?
    case _ => true
  }

  lemma {:induction false} ActorsFitTheKind(k: Kind, ws: seq<World>, acts: seq<Action>, n: nat)
    requires IsRun(k, ws, acts) && n < |ws|
    ensures forall id :: id in ws[n].actors ==> Fits(k, ws[n].actors[id])
  {
    if n > 0 {
      ActorsFitTheKind(k, ws, acts, n - 1);
      assert Step(k, ws[n - 1], acts[n - 1], ws[n]);
    }
  }
}
