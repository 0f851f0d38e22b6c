/**
 The store the election machine assumes is the store each backend is: whatever a backend answers the
 script's requests on the seed key, the machine has a step with the same answer and the same effect.
 */
module ElectionStore {
  import opened Wrappers
  import opened Lease
  import opened Election
  import DynamoKv
  import GcsMachine
  import GcsHistory
  import GcsTheorems

  /** The machine's key is what the store holds. */
  ghost predicate Agrees(w: World, c: Cell) {
    && (w.seed.Some? <==> c.Some?)
    && (c.Some? ==> c.value.val == w.seed.value.holder && c.value.expires == Some(w.seed.value.expires))
  }

  /** A store that answers as `Reference` does, judged and anchored by clocks no further ahead than the
      skew: the in-memory store, Firestore, and, request by request, the other two. */
  lemma ClaimIsServed(w: World, id: nat, skew: Skew, r: Rounding, c: Cell, self: string, judge: Time, anchor: Time)
    requires At(w, id, Claiming) && Agrees(w, c)
    requires judge <= w.now + skew.ahead && w.now - skew.lag <= anchor <= w.now + skew.ahead
    ensures var ip := w.replicas[id].ip;
            var (c', answer) := Reference(r, c, PutIfAbsent(ip, SEED_TTL), self, judge, anchor);
            var w' := Apply(w, Claim(id, answer != Yes, anchor), skew);
            && Agrees(w', c')
            && w'.replicas[id].pc == if answer == Yes then Bootstrapping else AwaitingElection(w.now + ELECT_WAIT)
  {
  }

  /** The poll for a seed: seen, or not yet. */
  lemma PollIsServed(w: World, id: nat, skew: Skew, r: Rounding, c: Cell, self: string, judge: Time, anchor: Time)
    requires id in w.replicas && w.replicas[id].pc.AwaitingElection? && Agrees(w, c) && w.now - skew.behind <= judge
    ensures var (c', answer) := Reference(r, c, Get, self, judge, anchor);
            var w' := Apply(w, Poll(id, answer.NotFound?), skew);
            && Agrees(w', c')
            && w'.replicas[id].pc == if answer.Found? then Fetching
                                     else if w.now >= w.replicas[id].pc.deadline then Raised
                                     else w.replicas[id].pc
  {
  }

  lemma FetchIsServed(w: World, id: nat, skew: Skew, r: Rounding, c: Cell, self: string, judge: Time, anchor: Time)
    requires At(w, id, Fetching) && Agrees(w, c) && w.now - skew.behind <= judge
    ensures var (c', answer) := Reference(r, c, Get, self, judge, anchor);
            var w' := Apply(w, Fetch(id, answer.NotFound?), skew);
            && Agrees(w', c') && w'.replicas[id].pc.AwaitingService?
            && HolderOf(w'.replicas[id].pc.seed) == if answer.Found? then Some(answer.val) else None
  {
  }

  lemma ReleaseIsServed(w: World, id: nat, skew: Skew, r: Rounding, c: Cell, self: string, judge: Time, anchor: Time)
    requires id in w.replicas && w.replicas[id].pc.Releasing? && Agrees(w, c)
    ensures var op := Delete(HolderOf(w.replicas[id].pc.seed));
            var (c', answer) := Reference(r, c, op, self, judge, anchor);
            Agrees(Apply(w, Release(id, answer != Yes), skew), c')
  {
  }

  lemma PreStopIsServed(w: World, id: nat, skew: Skew, r: Rounding, c: Cell, self: string, judge: Time, anchor: Time)
    requires At(w, id, Bootstrapping) || At(w, id, Joining)
    requires Agrees(w, c)
    ensures var op := Delete(Some(w.replicas[id].ip));
            var (c', answer) := Reference(r, c, op, self, judge, anchor);
            Agrees(Apply(w, PreStop(id, answer != Yes), skew), c')
  {
  }

  // ---- DynamoDB ----

  /** A claim on DynamoDB is the machine's: its lease begins at the whole second its item was built in. */
  lemma DynamoClaimIsServed(w: World, id: nat, skew: Skew, c: Cell, self: string, itemClock: Time, nowClock: Time)
    requires At(w, id, Claiming) && Agrees(w, c)
    requires nowClock <= w.now + skew.ahead && w.now - skew.lag <= itemClock - SECOND && itemClock <= w.now + skew.ahead
    ensures var (c', answer) := DynamoKv.Served(c, PutIfAbsent(w.replicas[id].ip, SEED_TTL), self, itemClock, nowClock);
            var anchor := DynamoKv.NowUnix(itemClock) * SECOND;
            && w.now - skew.lag <= anchor <= w.now + skew.ahead
            && Agrees(Apply(w, Claim(id, answer != Yes, anchor), skew), c')
  {
    var judge, anchor := DynamoKv.NowUnix(nowClock) * SECOND, DynamoKv.NowUnix(itemClock) * SECOND;
    assert judge <= nowClock && itemClock - SECOND <= anchor <= itemClock;
    ClaimIsServed(w, id, skew, WholeSeconds, c, self, judge, anchor);
  }

  /** A read judges by a whole second, at most a second behind the clock. */
  lemma DynamoFetchIsServed(w: World, id: nat, skew: Skew, c: Cell, self: string, clock: Time)
    requires At(w, id, Fetching) && Agrees(w, c) && w.now - skew.behind <= clock - SECOND
    ensures var (c', answer) := DynamoKv.Served(c, Get, self, clock, clock);
            var w' := Apply(w, Fetch(id, answer.NotFound?), skew);
            && Agrees(w', c') && w'.replicas[id].pc.AwaitingService?
            && HolderOf(w'.replicas[id].pc.seed) == if answer.Found? then Some(answer.val) else None
  {
    var judge := DynamoKv.NowUnix(clock) * SECOND;
    assert clock - SECOND <= judge;
    FetchIsServed(w, id, skew, WholeSeconds, c, self, judge, judge);
  }

  lemma DynamoPollIsServed(w: World, id: nat, skew: Skew, c: Cell, self: string, clock: Time)
    requires id in w.replicas && w.replicas[id].pc.AwaitingElection? && Agrees(w, c)
    requires w.now - skew.behind <= clock - SECOND
    ensures var (c', answer) := DynamoKv.Served(c, Get, self, clock, clock);
            var w' := Apply(w, Poll(id, answer.NotFound?), skew);
            Agrees(w', c') && (answer.Found? ==> w'.replicas[id].pc.Fetching?)
  {
    var judge := DynamoKv.NowUnix(clock) * SECOND;
    assert clock - SECOND <= judge;
    PollIsServed(w, id, skew, WholeSeconds, c, self, judge, judge);
  }

  lemma DynamoReleaseIsServed(w: World, id: nat, skew: Skew, c: Cell, self: string)
    requires id in w.replicas && w.replicas[id].pc.Releasing? && Agrees(w, c)
    ensures var (c', answer) := DynamoKv.Served(c, Delete(HolderOf(w.replicas[id].pc.seed)), self, 0, 0);
            Agrees(Apply(w, Release(id, answer != Yes), skew), c')
  {
    ReleaseIsServed(w, id, skew, WholeSeconds, c, self, 0, 0);
  }

  lemma DynamoPreStopIsServed(w: World, id: nat, skew: Skew, c: Cell, self: string)
    requires At(w, id, Bootstrapping) || At(w, id, Joining)
    requires Agrees(w, c)
    ensures var (c', answer) := DynamoKv.Served(c, Delete(Some(w.replicas[id].ip)), self, 0, 0);
            Agrees(Apply(w, PreStop(id, answer != Yes), skew), c')
  {
    PreStopIsServed(w, id, skew, WholeSeconds, c, self, 0, 0);
  }

  /** The service's TTL deletion is the machine's reaping. */
  lemma DynamoReapIsServed(w: World, skew: Skew, c: Cell, clock: Time)
    requires Agrees(w, c) && clock <= w.now + skew.ahead
    ensures var c' := DynamoKv.Reaped(c, clock);
            Agrees(w, c') || (Enabled(w, Reap, skew) && Agrees(Apply(w, Reap, skew), c'))
  {
    assert DynamoKv.NowUnix(clock) * SECOND <= clock;
  }

  // ---- Cloud Storage, in every interleaving of its requests ----

  function SameSkew(skew: Skew): GcsMachine.Skew {
    GcsMachine.Skew(skew.ahead, skew.behind)
  }

  /** A claim granted by Cloud Storage, in the step that writes it. */
  lemma GcsClaimIsServed(ws: seq<GcsMachine.World>, acts: seq<GcsMachine.Action>, skew: Skew, k: nat, call: nat,
                         w: World, id: nat)
    requires GcsMachine.IsRun(ws, acts, SameSkew(skew)) && GcsHistory.Answers(ws, k, call, Yes)
    requires At(w, id, Claiming) && ws[k].calls[call].op == PutIfAbsent(w.replicas[id].ip, SEED_TTL)
    requires w.now == ws[k].now && Agrees(w, GcsMachine.CellOf(ws[k].obj))
    ensures var w' := Apply(w, Claim(id, false, w.now), skew);
            Agrees(w', GcsMachine.CellOf(ws[k + 1].obj)) && w'.replicas[id].pc.Bootstrapping?
  {
    GcsTheorems.ClaimIsAtomic(ws, acts, SameSkew(skew), k, call);
    ClaimIsServed(w, id, skew, WholeMilliseconds, GcsMachine.CellOf(ws[k].obj), ws[k].calls[call].self,
                  w.now + skew.ahead, w.now);
  }

  /** A value got from Cloud Storage, in the step that reads its body: `g` is that state, and its premise
      what GcsTheorems.GetIsAtomicAtItsBodyRead says of it. */
  lemma GcsFetchIsServed(g: GcsMachine.World, call: GcsMachine.InFlight, val: string, w: World, id: nat, skew: Skew)
    requires call.op.Get?
    requires GcsTheorems.ReferenceAt(g, call, g.now - skew.behind) == (GcsMachine.CellOf(g.obj), Found(val))
    requires At(w, id, Fetching) && w.now == g.now && Agrees(w, GcsMachine.CellOf(g.obj))
    ensures var w' := Apply(w, Fetch(id, false), skew);
            && Agrees(w', GcsMachine.CellOf(g.obj)) && w'.replicas[id].pc.AwaitingService?
            && HolderOf(w'.replicas[id].pc.seed) == Some(val)
  {
    FetchIsServed(w, id, skew, WholeMilliseconds, GcsMachine.CellOf(g.obj), call.self, g.now - skew.behind, g.now);
  }

  lemma GcsPollIsServed(g: GcsMachine.World, call: GcsMachine.InFlight, val: string, w: World, id: nat, skew: Skew)
    requires call.op.Get?
    requires GcsTheorems.ReferenceAt(g, call, g.now - skew.behind) == (GcsMachine.CellOf(g.obj), Found(val))
    requires id in w.replicas && w.replicas[id].pc.AwaitingElection?
    requires w.now == g.now && Agrees(w, GcsMachine.CellOf(g.obj))
    ensures var w' := Apply(w, Poll(id, false), skew);
            Agrees(w', GcsMachine.CellOf(g.obj)) && w'.replicas[id].pc.Fetching?
  {
    PollIsServed(w, id, skew, WholeMilliseconds, GcsMachine.CellOf(g.obj), call.self, g.now - skew.behind, g.now);
  }

  /** A delete on Cloud Storage, in the step that deletes. */
  lemma GcsReleaseIsServed(ws: seq<GcsMachine.World>, acts: seq<GcsMachine.Action>, skew: Skew, k: nat, call: nat,
                           w: World, id: nat)
    requires GcsMachine.IsRun(ws, acts, SameSkew(skew)) && GcsHistory.Answers(ws, k, call, Yes)
    requires id in w.replicas && w.replicas[id].pc.Releasing?
    requires ws[k].calls[call].op == Delete(HolderOf(w.replicas[id].pc.seed))
    requires w.now == ws[k].now && Agrees(w, GcsMachine.CellOf(ws[k].obj))
    ensures Agrees(Apply(w, Release(id, false), skew), GcsMachine.CellOf(ws[k + 1].obj))
  {
    GcsTheorems.WriteIsAtomicUnlessLapsed(ws, acts, SameSkew(skew), k, call);
    ReleaseIsServed(w, id, skew, WholeMilliseconds, GcsMachine.CellOf(ws[k].obj), ws[k].calls[call].self, w.now, w.now);
  }

  lemma GcsPreStopIsServed(ws: seq<GcsMachine.World>, acts: seq<GcsMachine.Action>, skew: Skew, k: nat, call: nat,
                           w: World, id: nat)
    requires GcsMachine.IsRun(ws, acts, SameSkew(skew)) && GcsHistory.Answers(ws, k, call, Yes)
    requires At(w, id, Bootstrapping) || At(w, id, Joining)
    requires ws[k].calls[call].op == Delete(Some(w.replicas[id].ip))
    requires w.now == ws[k].now && Agrees(w, GcsMachine.CellOf(ws[k].obj))
    ensures Agrees(Apply(w, PreStop(id, false), skew), GcsMachine.CellOf(ws[k + 1].obj))
  {
    GcsTheorems.WriteIsAtomicUnlessLapsed(ws, acts, SameSkew(skew), k, call);
    PreStopIsServed(w, id, skew, WholeMilliseconds, GcsMachine.CellOf(ws[k].obj), ws[k].calls[call].self, w.now, w.now);
  }

  /** The machine's steps that stand for an answer of no effect. */
  predicate IsRefused(a: Action) {
    match a
    case Claim(_, refuse, _) => refuse
    case Poll(_, blind) => blind
    case Fetch(_, blind) => blind
    case Release(_, refuse) => refuse
    case PreStop(_, refuse) => refuse
    case _ => false
  }

  /** Any answer of Cloud Storage but Yes changes nothing, as the machine's refused steps do not. */
  lemma GcsRefusalIsServed(ws: seq<GcsMachine.World>, acts: seq<GcsMachine.Action>, skew: Skew, k: nat, call: nat,
                           answer: Answer, w: World, a: Action)
    requires GcsMachine.IsRun(ws, acts, SameSkew(skew)) && GcsHistory.Answers(ws, k, call, answer) && answer != Yes
    requires Agrees(w, GcsMachine.CellOf(ws[k].obj)) && Enabled(w, a, skew) && IsRefused(a)
    ensures ws[k + 1].obj == ws[k].obj && Agrees(Apply(w, a, skew), GcsMachine.CellOf(ws[k + 1].obj))
  {
    GcsHistory.AnswerStep(ws, acts, SameSkew(skew), k, call, answer);
  }

  /** Nothing else changes the object: every step that does either answers Yes or is the lifecycle rule. */
  lemma GcsOnlyAnswersChange(g: GcsMachine.World, a: GcsMachine.Action, g': GcsMachine.World, gskew: GcsMachine.Skew)
    requires GcsMachine.Step(g, a, g', gskew) && g'.obj != g.obj
    ensures a.Reap? || (a.Advance? && g'.calls[a.id].pc == GcsMachine.Done(Yes))
  {
  }

  /** The bucket's lifecycle rule takes a seed only long after its lease. */
  lemma GcsReapIsServed(g: GcsMachine.World, gskew: GcsMachine.Skew, w: World, skew: Skew)
    requires GcsMachine.Enabled(g, GcsMachine.Reap, gskew) && g.obj.value.ttlMs == Some(SEED_TTL / MILLISECOND)
    requires w.now == g.now && Agrees(w, GcsMachine.CellOf(g.obj))
    ensures Enabled(w, Reap, skew) && Agrees(Apply(w, Reap, skew), None)
  {
  }
}
