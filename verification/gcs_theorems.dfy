/** What the Cloud Storage store guarantees in every interleaving, and where it is weaker than atomic. */
module GcsTheorems {
  import opened Lease
  import opened GcsMachine
  import opened GcsHistory

  /** The reference applied to the object as it stood in state `k`, anchored at that instant. */
  function ReferenceAt(w: World, c: InFlight, judge: Time): (Cell, Answer) {
    Reference(WholeMilliseconds, CellOf(w.obj), c.op, c.self, judge, w.now)
  }

  // ---- claims ----

  /** A PutIfAbsent that returns true is the atomic operation at the instant of its write, judged
      no later than a fast clock would: with clocks not ahead of the server, nothing live was there. */
  lemma ClaimIsAtomic(ws: seq<World>, acts: seq<Action>, skew: Skew, k: nat, id: CallId)
    requires IsRun(ws, acts, skew) && Answers(ws, k, id, Yes) && ws[k].calls[id].op.PutIfAbsent?
    ensures !LiveCell(CellOf(ws[k].obj), ws[k].now + skew.ahead)
    ensures ReferenceAt(ws[k], ws[k].calls[id], ws[k].now + skew.ahead) == (CellOf(ws[k + 1].obj), Yes)
  {
    AnswerStep(ws, acts, skew, k, id, Yes);
  }

  /** Two calls that both succeed from a read never acted on the same generation: of all the nodes
      that saw one lease lapse, exactly one wins. */
  lemma OneWinnerPerGeneration(ws: seq<World>, acts: seq<Action>, skew: Skew, k1: nat, id1: CallId,
                               k2: nat, id2: CallId)
    requires IsRun(ws, acts, skew) && k1 < k2
    requires Answers(ws, k1, id1, Yes) && ws[k1].calls[id1].pc.Commit?
    requires Answers(ws, k2, id2, Yes) && ws[k2].calls[id2].pc.Commit?
    ensures ws[k1].calls[id1].pc.e.gen < ws[k2].calls[id2].pc.e.gen
  {
    AnswerStep(ws, acts, skew, k1, id1, Yes);
    AnswerStep(ws, acts, skew, k2, id2, Yes);
    assert ws[k1 + 1].obj != ws[k1].obj;
    GenerationsNeverReturn(ws, acts, skew, k1, k1 + 1, k2);
  }

  /** Every successful conditional request (a claim of a lapsed lease, a swap, a renewal or a
      conditional delete) acts on the very object its own read returned: nothing was written or
      deleted from the attribute read to the request, and the local decision was made in between. */
  lemma ConditionalRequestActsOnItsRead(ws: seq<World>, acts: seq<Action>, skew: Skew, k: nat, id: CallId)
    requires IsRun(ws, acts, skew) && Answers(ws, k, id, Yes) && ws[k].calls[id].pc.Commit?
    ensures var c := ws[k].calls[id];
            exists m: nat, b: nat, j: nat, clock ::
              && m < b < j < k
              && AttrsReadAt(ws, m, id, Meta(c.pc.e.gen, c.pc.e.owner, c.pc.e.expires)) && BodyReadAt(ws, b, id, c.pc.e)
              && JudgedAt(ws, acts, skew, j, id, c.pc.e, clock)
              && (forall x :: m <= x <= k ==> ws[x].obj.Some? && StateOf(ws[x].obj.value) == c.pc.e)
              && ReferenceAt(ws[k], c, clock) == (CellOf(ws[k + 1].obj), Yes)
  {
    var c := ws[k].calls[id];
    AnswerStep(ws, acts, skew, k, id, Yes);
    var m, b, j, clock := CommitHistory(ws, acts, skew, k, id);
    SameGenerationSameObject(ws, acts, skew, m, k);
    assert StateOf(ws[k].obj.value) == c.pc.e;
    assert ReferenceAt(ws[k], c, clock) == (CellOf(ws[k + 1].obj), Yes);
  }

  /** A swap or a renewal is atomic at the instant of its write exactly when the lease it was judged
      by has not lapsed in the meantime.  A conditional delete always is. */
  lemma WriteIsAtomicUnlessLapsed(ws: seq<World>, acts: seq<Action>, skew: Skew, k: nat, id: CallId)
    requires IsRun(ws, acts, skew) && Answers(ws, k, id, Yes) && !ws[k].calls[id].op.PutIfAbsent?
    ensures var c := ws[k].calls[id];
            ReferenceAt(ws[k], c, ws[k].now) == (CellOf(ws[k + 1].obj), Yes) <==> c.op.Delete? || LiveAt(ws[k])
  {
    AnswerStep(ws, acts, skew, k, id, Yes);
  }

  // ---- leases ----

  /** Step `k` removes the object: a delete, or the bucket's lifecycle rule. */
  predicate Removes(ws: seq<World>, k: nat)
    requires k + 1 < |ws|
  {
    ws[k].obj.Some? && ws[k + 1].obj.None?
  }

  /** Step `k` is a write by a call that is not a renewal. */
  predicate TakesOver(ws: seq<World>, acts: seq<Action>, k: nat)
    requires k < |acts| && k + 1 < |ws|
  {
    && acts[k].Advance? && acts[k].id in ws[k].calls && !ws[k].calls[acts[k].id].op.Renew?
    && ws[k + 1].obj.Some? && ws[k + 1].obj != ws[k].obj
  }

  /** How an object comes to be replaced: by a call, and a renewal keeps what it holds; and a permanent
      one only by a swap. */
  lemma WhatReplacesAnObject(w: World, a: Action, w': World, skew: Skew)
    requires Inv(w, skew) && Step(w, a, w', skew) && w.obj.Some?
    ensures w'.obj.Some? && w'.obj != w.obj ==>
              && a.Advance? && a.id in w.calls && w.obj.value.updated <= w'.obj.value.updated
              && (w.calls[a.id].op.Renew? ==>
                    w'.obj.value.val == w.obj.value.val && w'.obj.value.owner == w.obj.value.owner)
              && (Expires(w.obj.value).None? ==> w.calls[a.id].op.CompareAndSwap?)
  {
    if a.Advance? {
      assert SnapshotOk(w, w.calls[a.id], skew);
    }
  }

  lemma {:induction false} HolderKeeps(ws: seq<World>, acts: seq<Action>, skew: Skew, i: nat, k: nat)
    requires IsRun(ws, acts, skew) && i <= k < |ws| && ws[i].obj.Some?
    requires forall x :: i <= x < k ==> !Removes(ws, x) && !TakesOver(ws, acts, x)
    ensures ws[k].obj.Some?
    ensures ws[k].obj.value.val == ws[i].obj.value.val && ws[k].obj.value.owner == ws[i].obj.value.owner
    ensures ws[i].obj.value.updated <= ws[k].obj.value.updated
  {
    if i < k {
      HolderKeeps(ws, acts, skew, i, k - 1);
      RunKeepsInv(ws, acts, skew, k - 1);
      assert Step(ws[k - 1], acts[k - 1], ws[k - 1 + 1], skew);
      assert !Removes(ws, k - 1) && !TakesOver(ws, acts, k - 1);
      WhatReplacesAnObject(ws[k - 1], acts[k - 1], ws[k], skew);
    }
  }

  /** Exclusivity: while nobody deletes or swaps the key, it keeps its value and holder, and the next
      claim commits no earlier than the last write plus its lease in whole milliseconds, less what a
      clock may run fast. */
  lemma LeaseExclusivity(ws: seq<World>, acts: seq<Action>, skew: Skew, i: nat, k: nat, id: CallId)
    requires IsRun(ws, acts, skew) && i <= k && k + 1 < |ws| && ws[i].obj.Some?
    requires forall x :: i <= x < k ==> !Removes(ws, x) && !TakesOver(ws, acts, x)
    requires Answers(ws, k, id, Yes) && ws[k].calls[id].op.PutIfAbsent?
    ensures forall x :: i <= x <= k ==> ws[x].obj.Some? && ws[x].obj.value.val == ws[i].obj.value.val
                                        && ws[x].obj.value.owner == ws[i].obj.value.owner
    ensures var o := ws[k].obj.value;
            o.updated >= ws[i].obj.value.updated && o.ttlMs.Some? && o.ttlMs.value > 0
            && ws[k].now >= o.updated + o.ttlMs.value * MILLISECOND - skew.ahead
  {
    forall x | i <= x <= k
      ensures ws[x].obj.Some? && ws[x].obj.value.val == ws[i].obj.value.val
              && ws[x].obj.value.owner == ws[i].obj.value.owner
    {
      HolderKeeps(ws, acts, skew, i, x);
    }
    HolderKeeps(ws, acts, skew, i, k);
    ClaimIsAtomic(ws, acts, skew, k, id);
  }

  /** A permanent key stays as it is until it is deleted, swapped or reaped: no claim takes it and no
      renewal touches it. */
  lemma PermanentKeyPersists(ws: seq<World>, acts: seq<Action>, skew: Skew, i: nat, k: nat)
    requires IsRun(ws, acts, skew) && i <= k < |ws| && ws[i].obj.Some? && Expires(ws[i].obj.value).None?
    requires forall x :: i <= x < k ==>
               !Removes(ws, x)
               && !(TakesOver(ws, acts, x) && ws[x].calls[acts[x].id].op.CompareAndSwap?)
    ensures ws[k].obj == ws[i].obj
  {
    if i < k {
      PermanentKeyPersists(ws, acts, skew, i, k - 1);
      RunKeepsInv(ws, acts, skew, k - 1);
      assert Step(ws[k - 1], acts[k - 1], ws[k - 1 + 1], skew);
      assert !Removes(ws, k - 1);
      assert !(TakesOver(ws, acts, k - 1) && ws[k - 1].calls[acts[k - 1].id].op.CompareAndSwap?);
      WhatReplacesAnObject(ws[k - 1], acts[k - 1], ws[k], skew);
    }
  }

  /** The lifecycle rule of a bucket made by -kv-create removes only lapsed objects exactly when the
      object carries a lease of at most a day.  It does remove a permanent key. */
  lemma LifecycleRuleSparesLiveLeasesIff(o: Object)
    ensures (forall now: Time :: now - o.updated >= DAY ==> !Live(Expires(o), now))
            <==> (o.ttlMs.Some? && 0 < o.ttlMs.value * MILLISECOND <= DAY)
  {
    if forall now: Time :: now - o.updated >= DAY ==> !Live(Expires(o), now) {
      var day := o.updated + DAY;
      assert !Live(Expires(o), day);
    }
  }

  /** A stored lease reads back as a lease exactly when it was at least a millisecond long. */
  lemma LeaseReadsBackIff(c: InFlight, val: string, now: Time, gen: nat)
    requires !c.op.Delete? && !c.op.Get?
    ensures var o := Written(c, val, now, gen);
            && o.Some? && (Expires(o.value).Some? <==> c.op.ttl >= MILLISECOND)
            && Expires(o.value) == Deadline(WholeMilliseconds, now, c.op.ttl)
  {
    assert c.op.ttl >= MILLISECOND ==> c.op.ttl / MILLISECOND >= 1;
  }

  // ---- reads ----

  /** A Get that returns a value takes effect at its body read: that generation was then current,
      unchanged since the attribute read, and live by as much as the client's clock is behind. */
  lemma GetIsAtomicAtItsBodyRead(ws: seq<World>, acts: seq<Action>, skew: Skew, k: nat, id: CallId, val: string)
    returns (m: nat, b: nat)
    requires IsRun(ws, acts, skew) && Answers(ws, k, id, Found(val)) && ws[k].calls[id].op.Get?
    ensures m < b < k && Running(ws[m], id) && ws[b].obj.Some? && forall x :: m <= x <= b ==> ws[x].obj == ws[b].obj
    ensures ReferenceAt(ws[b], ws[k].calls[id], ws[b].now - skew.behind) == (CellOf(ws[b].obj), Found(val))
  {
    AnswerStep(ws, acts, skew, k, id, Found(val));
    m, b := BodyHistory(ws, acts, skew, k, id);
    SameGenerationSameObject(ws, acts, skew, m, b);
    RunForward(ws, acts, skew, b, k);
  }

  // ---- refusals ----

  /** Live with a clock's lag to spare. */
  predicate LiveWithin(w: World, lag: nat) {
    LiveCell(CellOf(w.obj), w.now - lag)
  }

  /** An object present at `i` and replaced by `j` was live, once replaced, at an instant in between. */
  lemma ReplacementWitness(ws: seq<World>, acts: seq<Action>, skew: Skew, id: CallId, i: nat, j: nat)
    requires IsRun(ws, acts, skew) && i <= j < |ws| && Running(ws[j], id) && Running(ws[i], id)
    requires ws[j].obj.Some? && ws[j].obj != ws[i].obj
    ensures exists x: nat :: x <= j && Running(ws[x], id) && LiveWithin(ws[x], skew.behind)
  {
    var x := ReplacementWasLive(ws, acts, skew, i, j);
    RunForward(ws, acts, skew, i, x);
    RunningBefore(ws, acts, skew, id, x, j);
    assert LiveWithin(ws[x], skew.behind);
  }

  lemma {:induction false} StaysWithoutDelete(ws: seq<World>, acts: seq<Action>, skew: Skew, id: CallId, i: nat, j: nat)
    requires IsRun(ws, acts, skew) && i <= j < |ws| && Running(ws[i], id) && Running(ws[j], id) && ws[i].obj.Some?
    requires forall x :: 0 <= x < j && Running(ws[x], id) ==> !Removes(ws, x)
    ensures ws[j].obj.Some?
  {
    if i < j {
      RunForward(ws, acts, skew, i, j - 1);
      RunningBefore(ws, acts, skew, id, j - 1, j);
      StaysWithoutDelete(ws, acts, skew, id, i, j - 1);
      assert !Removes(ws, j - 1);
    }
  }

  /** A claim refused by its own decision read a live entry. */
  lemma JudgedLive(ws: seq<World>, acts: seq<Action>, skew: Skew, k: nat, id: CallId) returns (b: nat)
    requires IsRun(ws, acts, skew) && Answers(ws, k, id, No) && ws[k].calls[id].op.PutIfAbsent?
    requires ws[k].calls[id].pc.Judge?
    ensures b < k && Running(ws[b], id) && LiveWithin(ws[b], skew.behind)
  {
    AnswerStep(ws, acts, skew, k, id, No);
    var m;
    m, b := BodyHistory(ws, acts, skew, k, id);
    RunForward(ws, acts, skew, b, k);
  }

  /** A PutIfAbsent that returns false while nothing deletes the key lost to a live entry: one was
      there at some instant inside the call, whichever of its four ways to lose it took. */
  lemma RefusedClaimMetALiveEntry(ws: seq<World>, acts: seq<Action>, skew: Skew, k: nat, id: CallId)
    requires IsRun(ws, acts, skew) && Answers(ws, k, id, No) && ws[k].calls[id].op.PutIfAbsent?
    requires forall x :: 0 <= x < k && Running(ws[x], id) ==> !Removes(ws, x)
    ensures exists x: nat :: x <= k && Running(ws[x], id) && LiveWithin(ws[x], skew.behind)
  {
    AnswerStep(ws, acts, skew, k, id, No);
    var c := ws[k].calls[id];
    match c.pc
    case ReadAttrs =>
      var i := CreateHistory(ws, acts, skew, k, id);
      StaysWithoutDelete(ws, acts, skew, id, i, k);
    case ReadBody(meta) =>
      var m := AttrsHistory(ws, acts, skew, k, id);
      StaysWithoutDelete(ws, acts, skew, id, m, k);
      ReplacementWitness(ws, acts, skew, id, m, k);
    case Judge(e) =>
      var b := JudgedLive(ws, acts, skew, k, id);
    case Commit(e) =>
      var m, b, j, clock := CommitHistory(ws, acts, skew, k, id);
      StaysWithoutDelete(ws, acts, skew, id, b, k);
      ReplacementWitness(ws, acts, skew, id, b, k);
    case _ =>
  }

  // ---- exactly when a claim is refused, and a Get misses ----

  /** Step `c` is the call's create request, and it finds an object there. */
  ghost predicate MetAt(ws: seq<World>, acts: seq<Action>, c: nat, id: CallId) {
    && c < |acts| && c + 1 < |ws| && Running(ws[c], id) && ws[c].calls[id].pc.Create? && ws[c].obj.Some?
    && acts[c].Advance? && acts[c].id == id
  }

  /** The entry the claim met in its create request is removed before step `k`. */
  ghost predicate LosesWhatItMet(ws: seq<World>, acts: seq<Action>, k: nat, id: CallId) {
    exists c: nat, x: nat :: c < x < k < |ws| && MetAt(ws, acts, c, id) && Removes(ws, x)
  }

  /** Where nothing is live, nothing appears: the object stays as it is, or goes. */
  lemma {:induction false} NothingAppears(ws: seq<World>, acts: seq<Action>, skew: Skew, i: nat, j: nat)
    requires IsRun(ws, acts, skew) && i <= j < |ws|
    requires forall x :: i <= x <= j ==> !LiveAt(ws[x])
    ensures ws[j].obj.None? || ws[j].obj == ws[i].obj
  {
    if i < j {
      NothingAppears(ws, acts, skew, i, j - 1);
      assert Step(ws[j - 1], acts[j - 1], ws[j - 1 + 1], skew);
      StepMovesForward(ws[j - 1], acts[j - 1], ws[j], skew);
    }
  }

  /** What has gone between two states, some step has removed. */
  lemma {:induction false} SomeStepRemoves(ws: seq<World>, i: nat, j: nat) returns (x: nat)
    requires i <= j < |ws| && ws[i].obj.Some? && ws[j].obj.None?
    ensures i <= x < j && Removes(ws, x)
  {
    if ws[j - 1].obj.None? {
      x := SomeStepRemoves(ws, i, j - 1);
    } else {
      x := j - 1;
    }
  }

  /** A call that has made its create request never makes it again. */
  lemma {:induction false} PastCreate(ws: seq<World>, acts: seq<Action>, skew: Skew, id: CallId, c: nat, n: nat)
    requires IsRun(ws, acts, skew) && c < n < |ws| && MetAt(ws, acts, c, id)
    ensures id in ws[n].calls && !ws[n].calls[id].pc.Create?
  {
    assert Step(ws[c], acts[c], ws[c + 1], skew);
    if c + 1 < n {
      PastCreate(ws, acts, skew, id, c, n - 1);
      assert Step(ws[n - 1], acts[n - 1], ws[n - 1 + 1], skew);
    }
  }

  /** A claim past its create request met an object in it. */
  lemma {:induction false} MetBefore(ws: seq<World>, acts: seq<Action>, skew: Skew, n: nat, id: CallId) returns (c: nat)
    requires IsRun(ws, acts, skew) && n < |ws| && Running(ws[n], id)
    requires ws[n].calls[id].op.PutIfAbsent? && !ws[n].calls[id].pc.Create?
    ensures c < n && MetAt(ws, acts, c, id)
  {
    RunKeepsInv(ws, acts, skew, n);
    assert SnapshotOk(ws[n], ws[n].calls[id], skew);
    StepBack(ws, acts, skew, n, id);
    if acts[n - 1].Advance? && acts[n - 1].id == id && ws[n - 1].calls[id].pc.Create? {
      c := n - 1;
    } else {
      c := MetBefore(ws, acts, skew, n - 1, id);
    }
  }

  lemma RunningThroughout(ws: seq<World>, acts: seq<Action>, skew: Skew, id: CallId, i: nat, k: nat)
    requires IsRun(ws, acts, skew) && i <= k < |ws| && id in ws[i].calls && Running(ws[k], id)
    ensures forall x :: i <= x <= k ==> Running(ws[x], id)
  {
    forall x | i <= x <= k
      ensures Running(ws[x], id)
    {
      RunForward(ws, acts, skew, i, x);
      RunningBefore(ws, acts, skew, id, x, k);
    }
  }

  /** With nothing live during the call, a claim is refused only if the object is gone when it is. */
  lemma RefusedMeansGone(ws: seq<World>, acts: seq<Action>, skew: Skew, k: nat, id: CallId)
    requires IsRun(ws, acts, skew) && Answers(ws, k, id, No) && ws[k].calls[id].op.PutIfAbsent?
    requires forall x :: 0 <= x <= k && Running(ws[x], id) ==> !LiveWithin(ws[x], skew.behind)
    ensures ws[k].obj.None?
  {
    AnswerStep(ws, acts, skew, k, id, No);
    match ws[k].calls[id].pc
    case ReadBody(meta) =>
      var m := AttrsHistory(ws, acts, skew, k, id);
      RunningThroughout(ws, acts, skew, id, m, k);
      NothingAppears(ws, acts, skew, m, k);
    case Judge(e) =>
      var b := JudgedLive(ws, acts, skew, k, id);
      assert false;
    case Commit(e) =>
      var m, b, j, clock := CommitHistory(ws, acts, skew, k, id);
      RunningThroughout(ws, acts, skew, id, b, k);
      NothingAppears(ws, acts, skew, b, k);
    case _ =>
  }

  /** With nothing live during the call, a claim that loses what it met is refused. */
  lemma LosingMeansRefused(ws: seq<World>, acts: seq<Action>, skew: Skew, k: nat, id: CallId, answer: Answer)
    requires IsRun(ws, acts, skew) && Answers(ws, k, id, answer) && ws[k].calls[id].op.PutIfAbsent?
    requires forall x :: 0 <= x <= k && Running(ws[x], id) ==> !LiveWithin(ws[x], skew.behind)
    requires LosesWhatItMet(ws, acts, k, id)
    ensures answer == No
  {
    var c: nat, x: nat :| c < x < k && MetAt(ws, acts, c, id) && Removes(ws, x);
    AnswerStep(ws, acts, skew, k, id, answer);
    PastCreate(ws, acts, skew, id, c, k);
    RunningThroughout(ws, acts, skew, id, c, k);
    NothingAppears(ws, acts, skew, x + 1, k);
  }

  /** With nothing live at any instant of the call, a claim is refused exactly when the lapsed entry its
      create request met is removed before the call is over. */
  lemma DeadKeyRefusedIff(ws: seq<World>, acts: seq<Action>, skew: Skew, k: nat, id: CallId, answer: Answer)
    requires IsRun(ws, acts, skew) && Answers(ws, k, id, answer) && ws[k].calls[id].op.PutIfAbsent?
    requires forall x :: 0 <= x <= k && Running(ws[x], id) ==> !LiveWithin(ws[x], skew.behind)
    ensures answer == No <==> LosesWhatItMet(ws, acts, k, id)
  {
    if answer == No {
      RefusedMeansGone(ws, acts, skew, k, id);
      AnswerStep(ws, acts, skew, k, id, No);
      var c := MetBefore(ws, acts, skew, k, id);
      var x := SomeStepRemoves(ws, c, k);
      assert Step(ws[c], acts[c], ws[c + 1], skew);
    } else if LosesWhatItMet(ws, acts, k, id) {
      LosingMeansRefused(ws, acts, skew, k, id, answer);
    }
  }

  /** A Get at its pinned body read answers "not found" exactly when the object has been replaced or removed
      since its attribute read. */
  lemma BodyReadMissesIff(ws: seq<World>, acts: seq<Action>, skew: Skew, k: nat, id: CallId, m: nat)
    requires IsRun(ws, acts, skew) && m < k && k + 1 < |ws| && Running(ws[k], id) && ws[k].calls[id].op.Get?
    requires ws[k].calls[id].pc.ReadBody? && AttrsReadAt(ws, m, id, ws[k].calls[id].pc.meta)
    requires acts[k].Advance? && acts[k].id == id
    ensures Answers(ws, k, id, NotFound) <==> exists x :: m < x <= k && ws[x].obj != ws[m].obj
  {
    assert Step(ws[k], acts[k], ws[k + 1], skew);
    RunKeepsInv(ws, acts, skew, k);
    if x :| m < x <= k && ws[x].obj != ws[m].obj {
      GenerationsNeverReturn(ws, acts, skew, m, x, k);
    }
  }

  /** A Get that has read the whole entry answers "not found" exactly when its lease has lapsed by the
      client's clock; the entry was current, and untouched, from attribute to body read. */
  lemma JudgedMissesIff(ws: seq<World>, acts: seq<Action>, skew: Skew, k: nat, id: CallId) returns (m: nat, b: nat)
    requires IsRun(ws, acts, skew) && k + 1 < |ws| && Running(ws[k], id) && ws[k].calls[id].op.Get?
    requires ws[k].calls[id].pc.Judge? && acts[k].Advance? && acts[k].id == id
    ensures var e := ws[k].calls[id].pc.e;
            && m < b < k && AttrsReadAt(ws, m, id, Meta(e.gen, e.owner, e.expires)) && BodyReadAt(ws, b, id, e)
            && (forall x :: m <= x <= b ==> ws[x].obj == ws[b].obj)
            && (Answers(ws, k, id, NotFound) <==> !LiveCell(CellOf(ws[b].obj), acts[k].clock))
  {
    assert Step(ws[k], acts[k], ws[k + 1], skew);
    m, b := BodyHistory(ws, acts, skew, k, id);
    SameGenerationSameObject(ws, acts, skew, m, b);
  }

  /** A Get that answers "not found" although the key is live has, by clocks not ahead of the server, lost
      the entry whose attributes it read: it was replaced since. */
  lemma LiveKeyNotFoundWasReplaced(ws: seq<World>, acts: seq<Action>, skew: Skew, k: nat, id: CallId) returns (m: nat)
    requires IsRun(ws, acts, skew) && skew.ahead == 0
    requires Answers(ws, k, id, NotFound) && ws[k].calls[id].op.Get?
    requires LiveAt(ws[k])
    ensures var pc := ws[k].calls[id].pc;
            && m < k && (pc.ReadBody? || pc.Judge?)
            && AttrsReadAt(ws, m, id, if pc.ReadBody? then pc.meta else Meta(pc.e.gen, pc.e.owner, pc.e.expires))
            && ws[m].obj.value.gen < ws[k].obj.value.gen
  {
    m := 0;
    AnswerStep(ws, acts, skew, k, id, NotFound);
    match ws[k].calls[id].pc
    case ReadBody(meta) =>
      m := AttrsHistory(ws, acts, skew, k, id);
      GenerationsNeverReturn(ws, acts, skew, m, k, k);
    case Judge(e) =>
      var b;
      m, b := BodyHistory(ws, acts, skew, k, id);
      GenerationsNeverReturn(ws, acts, skew, m, k, k);
    case _ =>
  }
}
