/**
 The election over Cloud Storage itself: what the script's decisions rest on in any run of the bucket,
 without the election machine in between.  A decision to bootstrap rests on one generation of the seed
 object, the one its claim wrote or its read found.
 */
module GcsElection {
  import opened Wrappers
  import opened Lease
  import opened GcsMachine
  import opened GcsHistory
  import opened GcsTheorems
  import Election

  /** Step `k` gives the script its reason to bootstrap `address`: a claim of the seed granted, or a read
      that finds it held by that address. */
  ghost predicate BootstrapsOn(ws: seq<World>, k: nat, id: CallId, address: string, gen: nat) {
    || (Answers(ws, k, id, Yes) && ws[k].calls[id].op == PutIfAbsent(address, Election.SEED_TTL)
        && ws[k + 1].obj.Some? && ws[k + 1].obj.value.gen == gen)
    || (Answers(ws, k, id, Found(address)) && ws[k].calls[id].op == Get
        && ws[k].calls[id].pc.Judge? && ws[k].calls[id].pc.e.gen == gen)
  }

  /** That generation of the object was there, and held the address. */
  lemma DecisionRestsOnAnObject(ws: seq<World>, acts: seq<Action>, skew: Skew, k: nat, id: CallId,
                                address: string, gen: nat) returns (x: nat)
    requires IsRun(ws, acts, skew) && BootstrapsOn(ws, k, id, address, gen)
    ensures x <= k + 1 < |ws| && ws[x].obj.Some?
    ensures ws[x].obj.value.gen == gen && ws[x].obj.value.val == address
  {
    if ws[k].calls[id].op.Get? {
      AnswerStep(ws, acts, skew, k, id, Found(address));
      var m;
      m, x := BodyHistory(ws, acts, skew, k, id);
    } else {
      AnswerStep(ws, acts, skew, k, id, Yes);
      x := k + 1;
    }
  }

  /** In every interleaving, all decisions to bootstrap that rest on one generation name one address. */
  lemma OneAddressPerGeneration(ws: seq<World>, acts: seq<Action>, skew: Skew, k1: nat, id1: CallId, a1: string,
                                k2: nat, id2: CallId, a2: string, gen: nat)
    requires IsRun(ws, acts, skew)
    requires BootstrapsOn(ws, k1, id1, a1, gen) && BootstrapsOn(ws, k2, id2, a2, gen)
    ensures a1 == a2
  {
    var x1 := DecisionRestsOnAnObject(ws, acts, skew, k1, id1, a1, gen);
    var x2 := DecisionRestsOnAnObject(ws, acts, skew, k2, id2, a2, gen);
    if x1 <= x2 {
      SameGenerationSameObject(ws, acts, skew, x1, x2);
    } else {
      SameGenerationSameObject(ws, acts, skew, x2, x1);
    }
  }

  // ---- runs of the script's own requests on an empty key ----

  predicate IsScripts(op: Op) {
    (op.PutIfAbsent? && op.ttl == Election.SEED_TTL) || op.Get? || op.Delete?
  }

  ghost predicate OnlyScripts(w: World) {
    forall id :: id in w.calls ==> IsScripts(w.calls[id].op)
  }

  ghost predicate IsScriptRun(ws: seq<World>, acts: seq<Action>, skew: Skew) {
    && IsRun(ws, acts, skew) && ws[0].obj.None?
    && forall n {:trigger ws[n]} :: 0 <= n < |ws| ==> OnlyScripts(ws[n])
  }

  predicate IsSeed(obj: Option<Object>) {
    obj.Some? ==> obj.value.ttlMs == Some(Election.SEED_TTL / MILLISECOND)
  }

  /** How a seed changes: taken by a claim that found it lapsed, deleted by the script, or reaped. */
  lemma SeedChange(w: World, a: Action, w': World, skew: Skew)
    requires Inv(w, skew) && Step(w, a, w', skew) && OnlyScripts(w) && IsSeed(w.obj)
    ensures IsSeed(w'.obj)
    ensures w.obj.Some? && w'.obj != w.obj ==>
              || w.obj.value.updated + Election.SEED_TTL - skew.ahead <= w.now
              || (w'.obj.None? && a.Advance? && a.id in w.calls && w.calls[a.id].op.Delete?)
  {
    if a.Advance? {
      assert SnapshotOk(w, w.calls[a.id], skew);
    }
  }

  lemma {:induction false} SeedsOnly(ws: seq<World>, acts: seq<Action>, skew: Skew, n: nat)
    requires IsScriptRun(ws, acts, skew) && n < |ws|
    ensures IsSeed(ws[n].obj)
  {
    if n > 0 {
      SeedsOnly(ws, acts, skew, n - 1);
      RunKeepsInv(ws, acts, skew, n - 1);
      assert Step(ws[n - 1], acts[n - 1], ws[n - 1 + 1], skew);
      SeedChange(ws[n - 1], acts[n - 1], ws[n], skew);
    }
  }

  /** An object that was not there at `i` was written since. */
  lemma {:induction false} WrittenSince(ws: seq<World>, acts: seq<Action>, skew: Skew, i: nat, j: nat)
    requires IsRun(ws, acts, skew) && i <= j < |ws| && ws[j].obj.Some? && ws[j].obj != ws[i].obj
    ensures ws[j].obj.value.updated >= ws[i].now
  {
    RunForward(ws, acts, skew, i, j - 1);
    assert Step(ws[j - 1], acts[j - 1], ws[j - 1 + 1], skew);
    StepMovesForward(ws[j - 1], acts[j - 1], ws[j], skew);
    if ws[j].obj == ws[j - 1].obj {
      WrittenSince(ws, acts, skew, i, j - 1);
    }
  }

  /** The first step after `i` that changes the object. */
  lemma {:induction false} FirstChange(ws: seq<World>, i: nat, j: nat) returns (y: nat)
    requires i <= j < |ws| && ws[j].obj != ws[i].obj
    ensures i <= y < j && ws[y].obj == ws[i].obj && ws[y + 1].obj != ws[i].obj
    decreases j - i
  {
    if ws[j - 1].obj == ws[i].obj {
      y := j - 1;
    } else {
      y := FirstChange(ws, i, j - 1);
    }
  }

  /** Step `y` is a delete by the script. */
  predicate ScriptDeletes(ws: seq<World>, acts: seq<Action>, y: nat)
    requires y < |acts| && y + 1 < |ws|
  {
    Removes(ws, y) && acts[y].Advance? && acts[y].id in ws[y].calls && ws[y].calls[acts[y].id].op.Delete?
  }

  /** In every interleaving of the script's requests, two bootstraps of different addresses rest on objects
      written a full lease apart, less a fast clock's lead, unless the script deleted the earlier one. */
  lemma BootstrapsAreALeaseApart(ws: seq<World>, acts: seq<Action>, skew: Skew, k1: nat, id1: CallId, a1: string,
                                 g1: nat, k2: nat, id2: CallId, a2: string, g2: nat) returns (x1: nat, x2: nat)
    requires IsScriptRun(ws, acts, skew) && a1 != a2 && g1 <= g2
    requires BootstrapsOn(ws, k1, id1, a1, g1) && BootstrapsOn(ws, k2, id2, a2, g2)
    ensures x1 < x2 < |ws| && ws[x1].obj.Some? && ws[x2].obj.Some?
    ensures ws[x1].obj.value.gen == g1 && ws[x2].obj.value.gen == g2
    ensures || ws[x2].obj.value.updated >= ws[x1].obj.value.updated + Election.SEED_TTL - skew.ahead
            || (exists y: nat :: x1 <= y < x2 && ws[y].obj == ws[x1].obj && ScriptDeletes(ws, acts, y))
  {
    x1 := DecisionRestsOnAnObject(ws, acts, skew, k1, id1, a1, g1);
    x2 := DecisionRestsOnAnObject(ws, acts, skew, k2, id2, a2, g2);
    if x2 <= x1 {
      GenerationsNeverReturn(ws, acts, skew, x2, x1, x1);
    }
    var y := FirstChange(ws, x1, x2);
    SeedsOnly(ws, acts, skew, y);
    RunKeepsInv(ws, acts, skew, y);
    assert Step(ws[y], acts[y], ws[y + 1], skew);
    SeedChange(ws[y], acts[y], ws[y + 1], skew);
    assert Removes(ws, y) || ws[y].obj.value.updated + Election.SEED_TTL - skew.ahead <= ws[y].now;
    WrittenSince(ws, acts, skew, y, x2);
    if ws[y].obj.value.updated + Election.SEED_TTL - skew.ahead > ws[y].now {
      assert ScriptDeletes(ws, acts, y);
    }
  }

  /** A release that names an address only ever deletes a seed of that address. */
  lemma NamedDeleteEndsItsHolder(ws: seq<World>, acts: seq<Action>, skew: Skew, k: nat, id: CallId, address: string)
    requires IsRun(ws, acts, skew) && Answers(ws, k, id, Yes) && ws[k].calls[id].op == Delete(Some(address))
    ensures ws[k].obj.Some? && ws[k].obj.value.val == address && ws[k + 1].obj.None?
  {
    AnswerStep(ws, acts, skew, k, id, Yes);
  }
}
