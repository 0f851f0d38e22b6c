/** join, select and any_true (async.go), for promises that settle in any order, or never. */
module Combinators {
  import opened Wrappers
  import opened Promises

  /** How an argument ends up: never settling, or with an outcome. */
  datatype Arg = Pending | Settled(outcome: Outcome)

  predicate Rejected(a: Arg) {
    a.Settled? && a.outcome.err.Some?
  }

  predicate Truthy(a: Arg) {
    a.Settled? && a.outcome.err.None? && a.outcome.value.Truth()
  }

  predicate Falsy(a: Arg) {
    a.Settled? && a.outcome.err.None? && !a.outcome.value.Truth()
  }

  /** A combinator returns, raises a rejection, raises because the context ended, waits forever, or raises
      because it was given no promise. */
  datatype Raced<T> = Got(value: T) | RaisedError(err: Error) | ContextEnded | Waits | NoPromise

  /** join() of one promise is its value, of several a list. */
  datatype Joined = Single(value: Value) | List(values: seq<Value>)

  function Values(j: Joined): seq<Value> {
    if j.Single? then [j.value] else j.values
  }

  /** reflect.Select over the done channels and the context: any case that becomes ready, or nothing if
      none ever does. */
  method SelectReady(args: seq<Arg>, ctxEnds: bool) returns (chosen: Option<nat>)
    ensures chosen.Some? ==> chosen.value <= |args|
    ensures chosen.Some? && chosen.value < |args| ==> args[chosen.value].Settled?
    ensures chosen == Some(|args|) ==> ctxEnds
    ensures chosen.None? ==> !ctxEnds && forall i :: 0 <= i < |args| ==> args[i].Pending?
  {
    var ctxFirst: bool := *;
    if ctxEnds && (ctxFirst || forall i :: 0 <= i < |args| ==> args[i].Pending?) {
      return Some(|args|);
    }
    if i :| 0 <= i < |args| && args[i].Settled? {
      return Some(i);
    }
    return None;
  }

  /** Await a promise that may still have the context end on it. */
  method AwaitArg(a: Arg, ctxEnds: bool) returns (r: Raced<Value>)
    ensures match r
            case Got(v) => a == Settled(Outcome(v, None))
            case RaisedError(e) => a.Settled? && a.outcome.err == Some(e)
            case ContextEnded => ctxEnds
            case Waits => a.Pending? && !ctxEnds
            case NoPromise => false
  {
    var ctxFirst: bool := *;
    if ctxEnds && (ctxFirst || a.Pending?) {
      return ContextEnded;
    }
    if a.Pending? {
      return Waits;
    }
    return if a.outcome.err.Some? then RaisedError(a.outcome.err.value) else Got(a.outcome.value);
  }

  /** Values in argument order, or the first rejection in argument order, whatever order they settle in. */
  method Join(args: seq<Arg>, ctxEnds: bool) returns (r: Raced<Joined>)
    ensures r.NoPromise? <==> args == []
    ensures r.Got? ==> |Values(r.value)| == |args| && (r.value.Single? <==> |args| == 1)
    ensures r.Got? ==> forall i :: 0 <= i < |args| ==> args[i] == Settled(Outcome(Values(r.value)[i], None))
    ensures r.RaisedError? ==> exists i :: 0 <= i < |args| && args[i].Settled? && args[i].outcome.err == Some(r.err)
                                           && forall j :: 0 <= j < i ==> args[j].Settled? && !Rejected(args[j])
    ensures r.ContextEnded? ==> ctxEnds
    ensures r.Waits? ==> !ctxEnds && exists i :: 0 <= i < |args| && args[i].Pending?
                                                 && forall j :: 0 <= j < i ==> args[j].Settled? && !Rejected(args[j])
  {
    if args == [] {
      return NoPromise;
    }
    var results: seq<Value> := [];
    for i := 0 to |args|
      invariant |results| == i
      invariant forall j :: 0 <= j < i ==> args[j] == Settled(Outcome(results[j], None))
    {
      var v := AwaitArg(args[i], ctxEnds);
      match v
      case Got(x) => results := results + [x];
      case RaisedError(e) => return RaisedError(e);
      case ContextEnded => return ContextEnded;
      case Waits => return Waits;
      case NoPromise =>
    }
    return Got(if |results| == 1 then Single(results[0]) else List(results));
  }

  /** The first argument to settle, itself: a rejection is not raised. */
  method Select(args: seq<Arg>, ctxEnds: bool) returns (r: Raced<nat>)
    ensures match r
            case Got(i) => i < |args| && args[i].Settled?
            case ContextEnded => args != [] && ctxEnds
            case Waits => args != [] && !ctxEnds && forall i :: 0 <= i < |args| ==> args[i].Pending?
            case RaisedError(_) => false
            case NoPromise => args == []
  {
    if args == [] {
      return NoPromise;
    }
    var chosen := SelectReady(args, ctxEnds);
    if chosen.None? {
      return Waits;
    }
    return if chosen.value == |args| then ContextEnded else Got(chosen.value);
  }

  ghost predicate AllFalsy(args: seq<Arg>) {
    forall i :: 0 <= i < |args| ==> Falsy(args[i])
  }

  /** Every argument not among the remaining ones has resolved falsy. */
  ghost predicate DoneWith(args: seq<Arg>, remaining: seq<Arg>) {
    && (forall a :: a in remaining ==> a in args)
    && (forall i :: 0 <= i < |args| ==> Falsy(args[i]) || args[i] in remaining)
  }

  /** True as soon as one resolves truthy, False once all have resolved falsy, a rejection raised; and
      which arguments are cancelled on the way out.  While the context lasts, it returns False exactly
      when all resolve falsy, and waits only while some argument never settles and no other decides.
      An argument's outcome is the one it settles with, whenever and for whatever reason; any_true's own
      cancels are its last act, and what they lead to it does not see. */
  method AnyTrue(args: seq<Arg>, cancellable: seq<bool>, ctxEnds: bool) returns (r: Raced<bool>, cancelled: set<nat>)
    requires |cancellable| == |args|
    ensures r.NoPromise? <==> args == []
    ensures r == Got(true) ==> exists i :: 0 <= i < |args| && Truthy(args[i])
    ensures r == Got(false) ==> AllFalsy(args)
    ensures r.RaisedError? ==> exists i :: 0 <= i < |args| && args[i].Settled? && args[i].outcome.err == Some(r.err)
    ensures r.ContextEnded? ==> ctxEnds
    ensures r.Waits? ==> !ctxEnds && (exists i :: 0 <= i < |args| && args[i].Pending?)
                         && forall i :: 0 <= i < |args| ==> !Truthy(args[i]) && !Rejected(args[i])
    ensures !ctxEnds && args != [] ==> (r == Got(false) <==> AllFalsy(args))
    ensures cancelled != {} ==> r == Got(true) || r.RaisedError? || r.ContextEnded?
    ensures r == Got(true) || r.RaisedError? ==> cancelled == set i: nat | i < |args| && cancellable[i]
    ensures r.ContextEnded? ==> cancelled == {} || cancelled == set i: nat | i < |args| && cancellable[i]
  {
    cancelled := {};
    if args == [] {
      return NoPromise, {};
    }
    var remaining := args;
    while remaining != []
      invariant DoneWith(args, remaining)
      decreases |remaining|
    {
      var chosen := SelectReady(remaining, ctxEnds);
      if chosen.None? {
        Stuck(args, remaining);
        return Waits, {};
      }
      if chosen.value == |remaining| {
        return ContextEnded, {};
      }
      var a := remaining[chosen.value];
      assert a in args;
      var v := AwaitArg(a, ctxEnds);
      if v.RaisedError? || v.ContextEnded? {
        cancelled := set i: nat | i < |args| && cancellable[i];
        return if v.RaisedError? then RaisedError(v.err) else ContextEnded, cancelled;
      }
      if v.value.Truth() {
        cancelled := set i: nat | i < |args| && cancellable[i];
        return Got(true), cancelled;
      }
      Drop(args, remaining, chosen.value);
      remaining := remaining[..chosen.value] + remaining[chosen.value + 1..];
    }
    return Got(false), {};
  }

  lemma Stuck(args: seq<Arg>, remaining: seq<Arg>)
    requires DoneWith(args, remaining) && remaining != [] && forall a :: a in remaining ==> a.Pending?
    ensures exists i :: 0 <= i < |args| && args[i].Pending?
    ensures forall i :: 0 <= i < |args| ==> !Truthy(args[i]) && !Rejected(args[i])
  {
    assert remaining[0] in args;
  }

  lemma Drop(args: seq<Arg>, remaining: seq<Arg>, k: nat)
    requires DoneWith(args, remaining) && k < |remaining| && Falsy(remaining[k])
    ensures DoneWith(args, remaining[..k] + remaining[k + 1..])
  {
    var rest := remaining[..k] + remaining[k + 1..];
    assert remaining == remaining[..k] + [remaining[k]] + remaining[k + 1..];
    assert forall a :: a in remaining ==> a in rest || a == remaining[k];
  }
}
