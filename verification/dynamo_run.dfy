/**
 Runs of the DynamoDB store on one key: requests of any clients, served in some order some time after
 they were built, and the service's own TTL deletion in between.
 */
module DynamoRun {
  import opened Wrappers
  import opened Lease
  import opened DynamoKv

  /** A request of `self`: `itemClock` is its clock's reading at `built`, for a new item's expiry, and
      `nowClock` the reading at `sent`, for `:now`. */
  datatype Request = Request(op: Op, self: string, built: Time, itemClock: Time, sent: Time, nowClock: Time)

  /** What the service does at instant `at`: serve a request, or delete an expired item by its own clock. */
  datatype Event =
    | Serve(request: Request, at: Time)
    | Reap(clock: Time, at: Time)

  function Reply(c: Cell, k: Request): (Cell, Answer) {
    Served(c, k.op, k.self, k.itemClock, k.nowClock)
  }

  /** The key after the first `n` events. */
  function After(c: Cell, es: seq<Event>, n: nat): Cell
    requires n <= |es|
  {
    if n == 0 then c
    else
      var before := After(c, es, n - 1);
      match es[n - 1]
      case Serve(k, _) => Reply(before, k).0
      case Reap(clock, _) => Reaped(before, clock)
  }

  predicate Succeeds(c: Cell, es: seq<Event>, i: nat)
    requires i < |es|
  {
    es[i].Serve? && Reply(After(c, es, i), es[i].request).1 == Yes
  }

  /** A granted claim or swap, or a delete. */
  predicate Takes(c: Cell, es: seq<Event>, i: nat)
    requires i < |es|
  {
    Succeeds(c, es, i) && !es[i].request.op.Renew?
  }

  predicate Within(clock: Time, t: Time, delta: nat) {
    t - delta <= clock <= t + delta
  }

  /** Events happen in order, requests before they are served, and every clock, the service's included,
      is within `delta` of the truth. */
  ghost predicate Timely(es: seq<Event>, delta: nat) {
    && (forall i, j :: 0 <= i <= j < |es| ==> es[i].at <= es[j].at)
    && forall i :: 0 <= i < |es| ==>
         match es[i]
         case Serve(k, at) =>
           k.built <= k.sent <= at && Within(k.itemClock, k.built, delta) && Within(k.nowClock, k.sent, delta)
         case Reap(clock, at) => Within(clock, at, delta)
  }

  /** Event `w` is the last of the first `n` to write the key: its grant, or the last successful renewal. */
  ghost predicate LastWrite(c: Cell, es: seq<Event>, n: nat, w: nat)
    requires n <= |es|
  {
    && w < n && es[w].Serve? && (w == 0 || (es[w].request.op.Renew? && Succeeds(c, es, w)))
    && forall i | w < i < n :: es[i].Serve? && es[i].request.op.Renew? ==> !Succeeds(c, es, i)
  }

  /** The request is a granted claim or renewal. */
  predicate Writes(k: Request) {
    k.op.PutIfAbsent? || k.op.Renew?
  }

  /** What a write of `k` records. */
  function Recorded(k: Request): Option<Time>
    requires Writes(k)
  {
    Deadline(WholeSeconds, NowUnix(k.itemClock) * SECOND, k.op.ttl)
  }

  /** The instant before which the lease written by `k` excludes everyone else. */
  function Bound(k: Request, delta: nat): Time
    requires Writes(k)
  {
    k.built + k.op.ttl / SECOND * SECOND - 2 * delta
  }

  /** A clock that shows the recorded expiry in the past, by whole seconds, is read after the bound. */
  lemma PastTheBound(k: Request, clock: Time, t: Time, delta: nat)
    requires Writes(k) && Recorded(k).Some? && Recorded(k).value < NowUnix(clock) * SECOND
    requires Within(k.itemClock, k.built, delta) && Within(clock, t, delta)
    ensures t > Bound(k, delta)
  {
    var s, s', f := NowUnix(k.itemClock), NowUnix(clock), k.op.ttl / SECOND;
    assert (s + f) * SECOND < s' * SECOND;
    assert s + f + 1 <= s';
    assert (s + f + 1) * SECOND <= s' * SECOND;
    assert k.itemClock < (s + 1) * SECOND && s' * SECOND <= clock;
  }

  /** The grant in event 0 still stands as last written by `w`. */
  predicate Held(c: Cell, grant: Request, w: Request) {
    grant.op.PutIfAbsent? && Writes(w) && c == Some(Entry(grant.op.val, grant.self, Recorded(w)))
  }

  /** Serving a request that does not take a held key leaves it held; one that does not take a free key
      leaves it free. */
  lemma NotTaken(c: Cell, k: Request, grant: Request, w: Request)
    requires k.op.Renew? || Reply(c, k).1 != Yes
    ensures c.None? ==> Reply(c, k).0.None? && Reply(c, k).1 != Yes
    ensures Held(c, grant, w) ==> Held(Reply(c, k).0, grant, if Reply(c, k).1 == Yes then k else w)
  {
  }

  /** While nobody takes it, a granted key keeps its holder, its value and the expiry of its last write,
      until, and not before the bound, the service reaps it. */
  lemma {:induction false} HeldOrReaped(c: Cell, es: seq<Event>, n: nat, delta: nat) returns (w: nat)
    requires 0 < n <= |es| && Timely(es, delta)
    requires Succeeds(c, es, 0) && es[0].request.op.PutIfAbsent?
    requires forall i | 0 < i < n :: !Takes(c, es, i)
    ensures LastWrite(c, es, n, w) && Writes(es[w].request)
    ensures Held(After(c, es, n), es[0].request, es[w].request)
            || (After(c, es, n).None? && es[w].request.op.ttl > 0 && es[n - 1].at > Bound(es[w].request, delta))
  {
    w := 0;
    if n > 1 {
      w := HeldOrReaped(c, es, n - 1, delta);
      var before := After(c, es, n - 1);
      match es[n - 1]
      case Serve(k, at) =>
        assert !Takes(c, es, n - 1);
        NotTaken(before, k, es[0].request, es[w].request);
        if Succeeds(c, es, n - 1) {
          w := n - 1;
        }
      case Reap(clock, at) =>
        if before.Some? && Reaped(before, clock).None? {
          PastTheBound(es[w].request, clock, at, delta);
        }
    } else {
      assert After(c, es, 1) == Reply(After(c, es, 0), es[0].request).0;
    }
  }

  /** Exclusivity.  With every clock within `delta` of the truth, and nobody deleting or swapping the key,
      no other claim is served before the last write's request was built plus its lease in whole seconds,
      less twice `delta`; and none is even sent before, unless the service has reaped the key meanwhile. */
  lemma LeaseExclusivity(c: Cell, es: seq<Event>, n: nat, delta: nat) returns (w: nat)
    requires 0 < n < |es| && Timely(es, delta)
    requires Succeeds(c, es, 0) && es[0].request.op.PutIfAbsent?
    requires forall i | 0 < i < n :: !Takes(c, es, i)
    requires Succeeds(c, es, n) && es[n].request.op.PutIfAbsent?
    ensures LastWrite(c, es, n, w) && Writes(es[w].request) && es[w].request.op.ttl > 0
    ensures es[n].at > Bound(es[w].request, delta)
    ensures After(c, es, n).Some? ==> es[n].request.sent > Bound(es[w].request, delta)
  {
    w := HeldOrReaped(c, es, n, delta);
    var before, k := After(c, es, n), es[n].request;
    if before.Some? {
      assert before.value.expires.Some? && before.value.expires.value < NowUnix(k.nowClock) * SECOND;
      PastTheBound(es[w].request, k.nowClock, k.sent, delta);
    }
  }

  lemma OneLastWrite(c: Cell, es: seq<Event>, n: nat, w1: nat, w2: nat)
    requires n <= |es| && LastWrite(c, es, n, w1) && LastWrite(c, es, n, w2)
    ensures w1 == w2
  {
  }

  /** A claim sent before the bound, however long it took, is granted exactly when the service has reaped the
      key by the time it is served. */
  lemma EarlyClaimSucceedsIffReaped(c: Cell, es: seq<Event>, n: nat, w: nat, delta: nat)
    requires 0 < n < |es| && Timely(es, delta)
    requires Succeeds(c, es, 0) && es[0].request.op.PutIfAbsent?
    requires forall i | 0 < i < n :: !Takes(c, es, i)
    requires LastWrite(c, es, n, w) && Writes(es[w].request)
    requires es[n].Serve? && es[n].request.op.PutIfAbsent? && es[n].request.sent <= Bound(es[w].request, delta)
    ensures Succeeds(c, es, n) <==> After(c, es, n).None?
  {
    if Succeeds(c, es, n) {
      var w' := LeaseExclusivity(c, es, n, delta);
      OneLastWrite(c, es, n, w, w');
    }
  }

  /** A permanent key is kept over any run: only a delete or a swap that succeeds changes it. */
  lemma {:induction false} PermanentKeyPersists(c: Cell, es: seq<Event>, n: nat)
    requires c.Some? && c.value.expires.None? && n <= |es|
    requires forall i | 0 <= i < n ::
               es[i].Serve? && (es[i].request.op.Delete? || es[i].request.op.CompareAndSwap?) ==> !Succeeds(c, es, i)
    ensures After(c, es, n) == c
  {
    if n > 0 {
      PermanentKeyPersists(c, es, n - 1);
      if es[n - 1].Serve? {
        var op := es[n - 1].request.op;
        assert op.CompareAndSwap? || op.Delete? ==> !Succeeds(c, es, n - 1);
      }
    }
  }

  /** A run, with perfect clocks, in which the reaper lets in a claim sent before the bound and delayed on
      its way: the bound is on serving, not on sending. */
  lemma DelayedClaimAfterReap()
    ensures exists es: seq<Event> ::
              && |es| == 3 && Timely(es, 0) && Succeeds(None, es, 0) && Succeeds(None, es, 2)
              && Writes(es[0].request) && es[1].Reap? && es[2].request.op.PutIfAbsent?
              && es[2].request.sent < Bound(es[0].request, 0)
  {
    var a := Request(Lease.PutIfAbsent("x", 10 * SECOND), "a", 0, 0, 0, 0);
    var b := Request(Lease.PutIfAbsent("y", 0), "b", 5 * SECOND, 5 * SECOND, 5 * SECOND, 5 * SECOND);
    var es := [Serve(a, 0), Reap(11 * SECOND, 11 * SECOND), Serve(b, 11 * SECOND)];
    assert After(None, es, 1) == Some(Entry("x", "a", Some(10 * SECOND)));
    assert After(None, es, 2) == None;
  }
}
