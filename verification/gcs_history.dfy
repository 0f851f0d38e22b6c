/** Facts about where a call in a run has been, and about the object between two states of a run. */
module GcsHistory {
  import opened Lease
  import opened GcsMachine

  // ---- the object over a run ----

  lemma {:induction false} RunForward(ws: seq<World>, acts: seq<Action>, skew: Skew, i: nat, j: nat)
    requires IsRun(ws, acts, skew) && i <= j < |ws|
    ensures ws[i].now <= ws[j].now && ws[i].high <= ws[j].high && ws[i].calls.Keys <= ws[j].calls.Keys
  {
    if i < j {
      RunForward(ws, acts, skew, i, j - 1);
      assert Step(ws[j - 1], acts[j - 1], ws[j - 1 + 1], skew);
      StepMovesForward(ws[j - 1], acts[j - 1], ws[j], skew);
    }
  }

  /** Once an object has been replaced or deleted, its generation never comes back. */
  lemma {:induction false} GenerationsNeverReturn(ws: seq<World>, acts: seq<Action>, skew: Skew, i: nat, k: nat, j: nat)
    requires IsRun(ws, acts, skew) && i <= k <= j < |ws|
    requires ws[i].obj.Some? && ws[k].obj != ws[i].obj
    ensures ws[j].obj.None? || ws[j].obj.value.gen > ws[i].obj.value.gen
    decreases j
  {
    RunKeepsInv(ws, acts, skew, i);
    RunForward(ws, acts, skew, i, j - 1);
    assert Step(ws[j - 1], acts[j - 1], ws[j - 1 + 1], skew);
    StepMovesForward(ws[j - 1], acts[j - 1], ws[j], skew);
    if ws[j].obj == ws[j - 1].obj {
      GenerationsNeverReturn(ws, acts, skew, i, if k < j then k else j - 1, j - 1);
    }
  }

  /** The same generation at two instants is the same object, untouched in between. */
  lemma SameGenerationSameObject(ws: seq<World>, acts: seq<Action>, skew: Skew, i: nat, j: nat)
    requires IsRun(ws, acts, skew) && i <= j < |ws|
    requires ws[i].obj.Some? && ws[j].obj.Some? && ws[i].obj.value.gen == ws[j].obj.value.gen
    ensures forall x :: i <= x <= j ==> ws[x].obj == ws[i].obj
  {
    forall x | i <= x <= j
      ensures ws[x].obj == ws[i].obj
    {
      if ws[x].obj != ws[i].obj {
        GenerationsNeverReturn(ws, acts, skew, i, x, j);
      }
    }
  }

  /** An object that replaced another was live at some instant after the replacement. */
  lemma {:induction false} ReplacementWasLive(ws: seq<World>, acts: seq<Action>, skew: Skew, i: nat, j: nat)
    returns (x: nat)
    requires IsRun(ws, acts, skew) && i <= j < |ws|
    requires ws[j].obj.Some? && ws[j].obj != ws[i].obj
    ensures i < x <= j && LiveAt(ws[x])
  {
    assert Step(ws[j - 1], acts[j - 1], ws[j - 1 + 1], skew);
    StepMovesForward(ws[j - 1], acts[j - 1], ws[j], skew);
    if ws[j].obj == ws[j - 1].obj {
      x := ReplacementWasLive(ws, acts, skew, i, j - 1);
    } else {
      x := j;
    }
  }

  // ---- a call over a run ----

  /** In state `m` the call is about to read attributes, and they say `meta`. */
  ghost predicate AttrsReadAt(ws: seq<World>, m: nat, id: CallId, meta: Meta) {
    && m < |ws| && id in ws[m].calls && ws[m].calls[id].pc.ReadAttrs?
    && ws[m].obj.Some? && MetaOf(ws[m].obj.value) == meta
  }

  /** In state `b` the call is about to read the pinned body, and the whole entry is `e`. */
  ghost predicate BodyReadAt(ws: seq<World>, b: nat, id: CallId, e: EntryState) {
    && b < |ws| && id in ws[b].calls && ws[b].calls[id].pc.ReadBody?
    && ws[b].obj.Some? && StateOf(ws[b].obj.value) == e
  }

  /** In state `j` the call decides about `e` by its own clock. */
  ghost predicate JudgedAt(ws: seq<World>, acts: seq<Action>, skew: Skew, j: nat, id: CallId,
                           e: EntryState, clock: Time) {
    && j < |acts| < |ws| && id in ws[j].calls && ws[j].calls[id].pc == Judge(e)
    && acts[j].Advance? && acts[j].id == id && acts[j].clock == clock
    && ws[j].now - skew.behind <= clock <= ws[j].now + skew.ahead
  }

  /** In step `k` the call finishes with `answer`. */
  ghost predicate Answers(ws: seq<World>, k: nat, id: CallId, answer: Answer) {
    k + 1 < |ws| && Running(ws[k], id) && id in ws[k + 1].calls && ws[k + 1].calls[id].pc == Done(answer)
  }

  /** A finished call stays finished. */
  lemma {:induction false} RunningBefore(ws: seq<World>, acts: seq<Action>, skew: Skew, id: CallId, i: nat, j: nat)
    requires IsRun(ws, acts, skew) && i <= j < |ws| && id in ws[i].calls && Running(ws[j], id)
    ensures Running(ws[i], id)
  {
    if i < j {
      RunForward(ws, acts, skew, i, j - 1);
      assert Step(ws[j - 1], acts[j - 1], ws[j - 1 + 1], skew);
      RunningBefore(ws, acts, skew, id, i, j - 1);
    }
  }

  /** The step just before a call's present program counter: either it was already there, or it got
      there by its own step, or it has only just begun. */
  lemma StepBack(ws: seq<World>, acts: seq<Action>, skew: Skew, n: nat, id: CallId)
    requires IsRun(ws, acts, skew) && 0 < n < |ws| && id in ws[n].calls
    ensures acts[n - 1].Advance? && acts[n - 1].id == id
            ==> Running(ws[n - 1], id) && Enabled(ws[n - 1], acts[n - 1], skew)
                && ws[n] == Advanced(ws[n - 1], id, acts[n - 1].clock, acts[n - 1].bump)
    ensures !(acts[n - 1].Advance? && acts[n - 1].id == id)
            ==> (id in ws[n - 1].calls && ws[n - 1].calls[id] == ws[n].calls[id])
                || (id !in ws[n - 1].calls && ws[n].calls[id].pc == FirstPc(ws[n].calls[id].op))
  {
    assert Step(ws[n - 1], acts[n - 1], ws[n - 1 + 1], skew);
  }

  lemma {:induction false} AttrsHistory(ws: seq<World>, acts: seq<Action>, skew: Skew, n: nat, id: CallId)
    returns (m: nat)
    requires IsRun(ws, acts, skew) && n < |ws| && id in ws[n].calls && ws[n].calls[id].pc.ReadBody?
    ensures m < n && AttrsReadAt(ws, m, id, ws[n].calls[id].pc.meta)
  {
    StepBack(ws, acts, skew, n, id);
    if acts[n - 1].Advance? && acts[n - 1].id == id {
      m := n - 1;
    } else {
      m := AttrsHistory(ws, acts, skew, n - 1, id);
    }
  }

  lemma {:induction false} BodyHistory(ws: seq<World>, acts: seq<Action>, skew: Skew, n: nat, id: CallId)
    returns (m: nat, b: nat)
    requires IsRun(ws, acts, skew) && n < |ws| && id in ws[n].calls && ws[n].calls[id].pc.Judge?
    ensures m < b < n
    ensures var e := ws[n].calls[id].pc.e;
            AttrsReadAt(ws, m, id, Meta(e.gen, e.owner, e.expires)) && BodyReadAt(ws, b, id, e)
  {
    StepBack(ws, acts, skew, n, id);
    if acts[n - 1].Advance? && acts[n - 1].id == id {
      b := n - 1;
      m := AttrsHistory(ws, acts, skew, b, id);
      RunKeepsInv(ws, acts, skew, b);
      assert SnapshotOk(ws[b], ws[b].calls[id], skew);
    } else {
      m, b := BodyHistory(ws, acts, skew, n - 1, id);
    }
  }

  lemma {:induction false} CommitHistory(ws: seq<World>, acts: seq<Action>, skew: Skew, n: nat, id: CallId)
    returns (m: nat, b: nat, j: nat, clock: Time)
    requires IsRun(ws, acts, skew) && n < |ws| && id in ws[n].calls && ws[n].calls[id].pc.Commit?
    ensures m < b < j < n
    ensures var e := ws[n].calls[id].pc.e;
            && AttrsReadAt(ws, m, id, Meta(e.gen, e.owner, e.expires)) && BodyReadAt(ws, b, id, e)
            && JudgedAt(ws, acts, skew, j, id, e, clock)
            && Decide(ws[n].calls[id], e, clock) == Commit(e)
  {
    StepBack(ws, acts, skew, n, id);
    if acts[n - 1].Advance? && acts[n - 1].id == id {
      j, clock := n - 1, acts[n - 1].clock;
      m, b := BodyHistory(ws, acts, skew, j, id);
    } else {
      m, b, j, clock := CommitHistory(ws, acts, skew, n - 1, id);
    }
  }

  /** A PutIfAbsent past its first request saw an object there. */
  lemma {:induction false} CreateHistory(ws: seq<World>, acts: seq<Action>, skew: Skew, n: nat, id: CallId)
    returns (c: nat)
    requires IsRun(ws, acts, skew) && n < |ws| && id in ws[n].calls
    requires ws[n].calls[id].op.PutIfAbsent? && ws[n].calls[id].pc.ReadAttrs?
    ensures c < n && Running(ws[c], id) && ws[c].obj.Some?
  {
    StepBack(ws, acts, skew, n, id);
    if acts[n - 1].Advance? && acts[n - 1].id == id {
      c := n - 1;
    } else {
      c := CreateHistory(ws, acts, skew, n - 1, id);
    }
  }

  /** The step in which a call finishes is its own. */
  lemma AnswerStep(ws: seq<World>, acts: seq<Action>, skew: Skew, k: nat, id: CallId, answer: Answer)
    requires IsRun(ws, acts, skew) && Answers(ws, k, id, answer)
    ensures acts[k].Advance? && acts[k].id == id && Enabled(ws[k], acts[k], skew)
    ensures ws[k + 1] == Advanced(ws[k], id, acts[k].clock, acts[k].bump)
    ensures Inv(ws[k], skew) && SnapshotOk(ws[k], ws[k].calls[id], skew)
  {
    assert Step(ws[k], acts[k], ws[k + 1], skew);
    StepBack(ws, acts, skew, k + 1, id);
    RunKeepsInv(ws, acts, skew, k);
  }
}
