/**
 The client code of internal/provider/gcp/kv.go, method by method: server requests in the order the
 source issues them, local decisions on local variables, and any number of steps by other clients
 before every request and every clock reading.  Each method is proved to perform exactly the steps
 of one call of the state machine, so every theorem about runs is a theorem about this code.
 */
module GcsClient {
  import opened Wrappers
  import opened Lease
  import opened GcsMachine
  import opened GcsHistory
  import opened GcsTheorems

  /** The object in the bucket, the calls in flight on it, and the run that led here. */
  class Bucket {
    const skew: Skew
    var now: Time
    var obj: Option<Object>
    var high: nat
    var calls: map<CallId, InFlight>
    ghost var ws: seq<World>
    ghost var acts: seq<Action>

    function State(): World
      reads this
    {
      World(now, obj, high, calls)
    }

    ghost predicate Valid()
      reads this
    {
      IsRun(ws, acts, skew) && ws[|ws| - 1] == State()
    }

    constructor (skew: Skew, now: Time, obj: Option<Object>, high: nat)
      requires obj.Some? ==> obj.value.gen <= high && obj.value.updated <= now
      ensures Valid() && this.skew == skew && State() == World(now, obj, high, map[])
    {
      this.skew, this.now, this.obj, this.high, this.calls := skew, now, obj, high, map[];
      ws, acts := [World(now, obj, high, map[])], [];
    }

    /** Notes that the fields have just moved by step `a`. */
    ghost method Record(a: Action)
      requires IsRun(ws, acts, skew) && Step(ws[|ws| - 1], a, State(), skew)
      modifies this`ws, this`acts
      ensures Valid() && ws == old(ws) + [State()] && acts == old(acts) + [a]
    {
      ws, acts := ws + [State()], acts + [a];
    }

    /** Any number of steps by anybody else: time passing, other calls, the lifecycle rule. */
    method Interfere(me: CallId)
      requires Valid() && me in calls
      modifies this
      ensures Valid() && me in calls && calls[me] == old(calls[me])
      ensures old(ws) <= ws && old(now) <= now
    {
      var n: nat := *;
      while n > 0
        invariant Valid() && me in calls && calls[me] == old(calls[me])
        invariant old(ws) <= ws && old(now) <= now
      {
        var a: Action := *;
        if Enabled(State(), a, skew) && !(a.Advance? && a.id == me) {
          var w := Apply(State(), a, skew);
          StepMovesForward(State(), a, w, skew);
          now, obj, high, calls := w.now, w.obj, w.high, w.calls;
          Record(a);
        }
        n := n - 1;
      }
    }

    /** A call arrives; nothing has been requested yet. */
    method Open(me: CallId, self: string, op: Op)
      requires Valid() && me !in calls
      modifies this
      ensures Valid() && me in calls && calls[me] == InFlight(self, op, FirstPc(op))
      ensures ws == old(ws) + [State()]
    {
      calls := calls[me := InFlight(self, op, FirstPc(op))];
      Record(Begin(me, self, op));
    }

    /** The client's own clock, anywhere within the skew bounds. */
    method Clock() returns (c: Time)
      ensures now - skew.behind <= c <= now + skew.ahead
    {
      c :| now - skew.behind <= c <= now + skew.ahead;
    }

    /** Call `me` has made the step it was at and stands at `pc`. */
    method Close(me: CallId, pc: Pc, ghost clock: Time, ghost bump: nat)
      requires IsRun(ws, acts, skew) && me in calls
      requires Enabled(ws[|ws| - 1], Advance(me, clock, bump), skew)
      requires World(now, obj, high, calls[me := calls[me].(pc := pc)]) == Advanced(ws[|ws| - 1], me, clock, bump)
      modifies this`calls, this`ws, this`acts
      ensures Valid() && me in calls && calls[me] == old(calls[me]).(pc := pc)
      ensures ws == old(ws) + [State()]
    {
      calls := calls[me := calls[me].(pc := pc)];
      Record(Advance(me, clock, bump));
    }

    /** Call `me` is at `pc`, and the run has only grown since `from`. */
    ghost predicate At(me: CallId, self: string, op: Op, pc: Pc, from: seq<World>)
      reads this
    {
      Valid() && me in calls && calls[me] == InFlight(self, op, pc) && from <= ws
    }

    /** Call `me` finished in the last step of the run. */
    ghost predicate Finished(me: CallId, self: string, op: Op, answer: Answer, from: seq<World>)
      reads this
    {
      && At(me, self, op, Done(answer), from)
      && |from| < |ws| && |ws| >= 2 && Answers(ws, |ws| - 2, me, answer)
      && ws[|ws| - 2].calls[me].op == op && ws[|ws| - 2].calls[me].self == self
    }

    /** A claim that has just succeeded, seen from the bucket. */
    lemma ClaimFacts(me: CallId, self: string, val: string, ttl: int, from: seq<World>)
      requires Finished(me, self, Lease.PutIfAbsent(val, ttl), Yes, from)
      ensures var w := ws[|ws| - 2]; !LiveCell(CellOf(w.obj), w.now + skew.ahead)
      ensures CellOf(obj) == Some(Entry(val, self, Deadline(WholeMilliseconds, now, ttl)))
    {
      var k := |ws| - 2;
      ClaimIsAtomic(ws, acts, skew, k, me);
      AnswerStep(ws, acts, skew, k, me, Yes);
      assert ws[k + 1] == State();
    }

    // ---- the requests Cloud Storage serves, each preceded by whatever others do meanwhile ----

    method Attrs(me: CallId, self: string, op: Op) returns (m: Option<Meta>)
      requires At(me, self, op, ReadAttrs, ws)
      modifies this
      ensures m.None? ==> Finished(me, self, op, Negative(op), old(ws))
      ensures m.Some? ==> At(me, self, op, ReadBody(m.value), old(ws))
    {
      Interfere(me);
      if obj.None? {
        m := None;
        Close(me, Done(Negative(op)), now, 0);
      } else {
        m := Some(MetaOf(obj.value));
        Close(me, ReadBody(m.value), now, 0);
      }
    }

    /** The body of generation `m.gen`, if that is still the current one. */
    method PinnedBody(me: CallId, self: string, op: Op, m: Meta) returns (body: Option<string>)
      requires At(me, self, op, ReadBody(m), ws)
      modifies this
      ensures body.None? ==> Finished(me, self, op, Negative(op), old(ws))
      ensures body.Some? ==> At(me, self, op, Judge(EntryState(body.value, m.gen, m.owner, m.expires)), old(ws))
    {
      Interfere(me);
      if obj.Some? && obj.value.gen == m.gen {
        body := Some(obj.value.val);
        Close(me, Judge(EntryState(obj.value.val, m.gen, m.owner, m.expires)), now, 0);
      } else {
        body := None;
        Close(me, Done(Negative(op)), now, 0);
      }
    }

    method WriteIfAbsent(me: CallId, self: string, op: Op, val: string, ttl: int) returns (ok: bool)
      requires At(me, self, op, Create, ws) && op == PutIfAbsent(val, ttl)
      modifies this
      ensures ok ==> Finished(me, self, op, Yes, old(ws))
      ensures !ok ==> At(me, self, op, ReadAttrs, old(ws))
    {
      Interfere(me);
      ok := obj.None?;
      if ok {
        var bump: nat :| true;
        high := high + 1 + bump;
        obj := Some(Object(high, val, self, TtlMs(ttl), now));
        Close(me, Done(Yes), now, bump);
      } else {
        Close(me, ReadAttrs, now, 0);
      }
    }

    method WriteIfGeneration(me: CallId, self: string, op: Op, e: EntryState, val: string, ttl: int) returns (ok: bool)
      requires At(me, self, op, Commit(e), ws)
      requires op == PutIfAbsent(val, ttl) || (op.CompareAndSwap? && op.newV == val && op.ttl == ttl)
               || (op == Renew(ttl) && e.val == val)
      modifies this
      ensures Finished(me, self, op, if ok then Yes else No, old(ws))
    {
      Interfere(me);
      ok := obj.Some? && obj.value.gen == e.gen;
      if ok {
        var bump: nat :| true;
        high := high + 1 + bump;
        obj := Some(Object(high, val, self, TtlMs(ttl), now));
        Close(me, Done(Yes), now, bump);
      } else {
        Close(me, Done(No), now, 0);
      }
    }

    method DeleteIfGeneration(me: CallId, self: string, op: Op, e: EntryState) returns (ok: bool)
      requires At(me, self, op, Commit(e), ws) && op.Delete?
      modifies this
      ensures Finished(me, self, op, if ok then Yes else No, old(ws))
    {
      Interfere(me);
      ok := obj.Some? && obj.value.gen == e.gen;
      if ok {
        obj := None;
      }
      Close(me, Done(if ok then Yes else No), now, 0);
    }

    method DeleteObject(me: CallId, self: string)
      requires At(me, self, Delete(None), Remove, ws)
      modifies this
      ensures Finished(me, self, Delete(None), Yes, old(ws))
    {
      Interfere(me);
      obj := None;
      Close(me, Done(Yes), now, 0);
    }

    /** The caller reads its clock and decides about `e`. */
    method ReadClock(me: CallId, self: string, op: Op, e: EntryState) returns (clock: Time)
      requires At(me, self, op, Judge(e), ws)
      modifies this
      ensures var pc := Decide(InFlight(self, op, Judge(e)), e, clock);
              if pc.Done? then Finished(me, self, op, pc.answer, old(ws)) else At(me, self, op, pc, old(ws))
      ensures At(me, self, op, Decide(InFlight(self, op, Judge(e)), e, clock), old(ws))
    {
      Interfere(me);
      clock := Clock();
      Close(me, Decide(calls[me], e, clock), clock, 0);
    }
  }

  /** One instance's store: its owner name, over the shared bucket. */
  class GcsKV {
    const bucket: Bucket
    const owner: string

    constructor (bucket: Bucket, owner: string)
      ensures this.bucket == bucket && this.owner == owner
    {
      this.bucket, this.owner := bucket, owner;
    }

    /** Attributes first, then the body pinned to the generation they named. */
    method Read(me: CallId, op: Op) returns (e: Option<EntryState>)
      requires bucket.At(me, owner, op, ReadAttrs, bucket.ws)
      modifies bucket
      ensures e.None? ==> bucket.Finished(me, owner, op, Negative(op), old(bucket.ws))
      ensures e.Some? ==> bucket.At(me, owner, op, Judge(e.value), old(bucket.ws))
    {
      var m := bucket.Attrs(me, owner, op);
      if m.None? {
        return None;
      }
      var body := bucket.PinnedBody(me, owner, op, m.value);
      if body.None? {
        return None;   // superseded or deleted between the two reads
      }
      return Some(EntryState(body.value, m.value.gen, m.value.owner, m.value.expires));
    }

    method PutIfAbsent(me: CallId, val: string, ttl: int) returns (ok: bool)
      requires bucket.Valid() && me !in bucket.calls
      modifies bucket
      ensures bucket.Finished(me, owner, Lease.PutIfAbsent(val, ttl), if ok then Yes else No, old(bucket.ws))
      ensures var w := bucket.ws[|bucket.ws| - 2];
              ok ==> !LiveCell(CellOf(w.obj), w.now + bucket.skew.ahead)
                     && CellOf(bucket.obj) == Some(Entry(val, owner, Deadline(WholeMilliseconds, bucket.now, ttl)))
    {
      var op := Lease.PutIfAbsent(val, ttl);
      bucket.Open(me, owner, op);
      ok := bucket.WriteIfAbsent(me, owner, op, val, ttl);
      if !ok {
        var e := Read(me, op);
        if e.None? {
          return false;
        }
        var now := bucket.ReadClock(me, owner, op, e.value);
        if Live(e.value.expires, now) {
          return false;
        }
        ok := bucket.WriteIfGeneration(me, owner, op, e.value, val, ttl);
      }
      if ok {
        bucket.ClaimFacts(me, owner, val, ttl, old(bucket.ws));
      }
    }

    method CompareAndSwap(me: CallId, oldV: string, newV: string, ttl: int) returns (ok: bool)
      requires bucket.Valid() && me !in bucket.calls
      modifies bucket
      ensures bucket.Finished(me, owner, Lease.CompareAndSwap(oldV, newV, ttl), if ok then Yes else No, old(bucket.ws))
    {
      var op := Lease.CompareAndSwap(oldV, newV, ttl);
      bucket.Open(me, owner, op);
      var e := Read(me, op);
      if e.None? {
        return false;
      }
      var now := bucket.ReadClock(me, owner, op, e.value);
      if !Live(e.value.expires, now) || e.value.val != oldV {
        return false;
      }
      ok := bucket.WriteIfGeneration(me, owner, op, e.value, newV, ttl);
    }

    method Get(me: CallId) returns (v: Option<string>)
      requires bucket.Valid() && me !in bucket.calls
      modifies bucket
      ensures bucket.Finished(me, owner, Lease.Get, if v.Some? then Found(v.value) else NotFound, old(bucket.ws))
    {
      bucket.Open(me, owner, Lease.Get);
      var e := Read(me, Lease.Get);
      if e.None? {
        return None;
      }
      var now := bucket.ReadClock(me, owner, Lease.Get, e.value);
      if !Live(e.value.expires, now) {
        return None;
      }
      return Some(e.value.val);
    }

    method Delete(me: CallId, ifValue: Option<string>) returns (ok: bool)
      requires bucket.Valid() && me !in bucket.calls
      modifies bucket
      ensures bucket.Finished(me, owner, Lease.Delete(ifValue), if ok then Yes else No, old(bucket.ws))
    {
      var op := Lease.Delete(ifValue);
      bucket.Open(me, owner, op);
      if ifValue.None? {
        bucket.DeleteObject(me, owner);
        return true;
      }
      var e := Read(me, op);
      if e.None? {
        return false;
      }
      var now := bucket.ReadClock(me, owner, op, e.value);   // read, but not used: expiry is ignored
      if e.value.val != ifValue.value {
        return false;
      }
      ok := bucket.DeleteIfGeneration(me, owner, op, e.value);
    }

    method Renew(me: CallId, ttl: int) returns (answer: Answer)
      requires bucket.Valid() && me !in bucket.calls
      modifies bucket
      ensures ttl <= 0 ==> answer == Failed && bucket.At(me, owner, Lease.Renew(ttl), Done(Failed), old(bucket.ws))
      ensures ttl > 0 ==> answer in {Yes, No} && bucket.Finished(me, owner, Lease.Renew(ttl), answer, old(bucket.ws))
    {
      var op := Lease.Renew(ttl);
      bucket.Open(me, owner, op);
      if ttl <= 0 {
        return Failed;
      }
      var e := Read(me, op);
      if e.None? {
        return No;
      }
      var now := bucket.ReadClock(me, owner, op, e.value);
      if e.value.expires.None? || !Live(e.value.expires, now) || e.value.owner != owner {
        return No;
      }
      var ok := bucket.WriteIfGeneration(me, owner, op, e.value, e.value.val, ttl);
      answer := if ok then Yes else No;
    }
  }
}
