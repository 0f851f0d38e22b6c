/**
 Exactly what each call on Cloud Storage answers, in every interleaving, told by what it read and when:
 the value, owner and lease at its body read, its own clock at its decision, and whether the object has
 changed since its attribute read.
 */
module GcsAnswers {
  import opened Wrappers
  import opened Lease
  import opened GcsMachine
  import opened GcsHistory
  import opened GcsTheorems

  /** The object has been replaced or removed after state `m`, by state `k`. */
  ghost predicate ChangedSince(ws: seq<World>, m: nat, k: nat)
    requires m < |ws| && k < |ws|
  {
    exists x :: m < x <= k && ws[x].obj != ws[m].obj
  }

  /** The generation read at `m` is still the current one at `k` exactly when nothing has changed. */
  lemma StillThereIff(ws: seq<World>, acts: seq<Action>, skew: Skew, m: nat, k: nat)
    requires IsRun(ws, acts, skew) && m <= k < |ws| && ws[m].obj.Some?
    ensures (ws[k].obj.Some? && ws[k].obj.value.gen == ws[m].obj.value.gen) <==> !ChangedSince(ws, m, k)
  {
    if ws[k].obj.Some? && ws[k].obj.value.gen == ws[m].obj.value.gen {
      SameGenerationSameObject(ws, acts, skew, m, k);
    } else {
      assert m < k && ws[k].obj != ws[m].obj;
    }
  }

  /** The attributes a call past its first read has in hand. */
  function InHand(pc: Pc): Meta
    requires pc.ReadBody? || pc.Judge? || pc.Commit?
  {
    if pc.ReadBody? then pc.meta else Meta(pc.e.gen, pc.e.owner, pc.e.expires)
  }

  /** Where a call that answers in step `k` has read and decided: attributes at `m`, body at `b`, by `clock`
      at `j`. */
  ghost predicate ReadAndJudged(ws: seq<World>, acts: seq<Action>, skew: Skew, k: nat, id: CallId,
                                m: nat, b: nat, j: nat, clock: Time)
    requires k < |ws| && id in ws[k].calls
  {
    var pc := ws[k].calls[id].pc;
    && (pc.ReadBody? || pc.Judge? || pc.Commit?)
    && m < k && AttrsReadAt(ws, m, id, InHand(pc))
    && (!pc.ReadBody? ==> m < b < j <= k && BodyReadAt(ws, b, id, pc.e) && JudgedAt(ws, acts, skew, j, id, pc.e, clock))
  }

  /** What follows from where the call stands when it answers. */
  lemma HowItAnswers(ws: seq<World>, acts: seq<Action>, skew: Skew, k: nat, id: CallId, answer: Answer)
    returns (m: nat, b: nat, j: nat, clock: Time)
    requires IsRun(ws, acts, skew) && Answers(ws, k, id, answer)
    requires var pc := ws[k].calls[id].pc; pc.ReadBody? || pc.Judge? || pc.Commit?
    ensures ReadAndJudged(ws, acts, skew, k, id, m, b, j, clock)
    ensures var c := ws[k].calls[id];
            match c.pc
            case ReadBody(_) => ChangedSince(ws, m, k) && answer == Negative(c.op)
            case Judge(e) => Decide(c, e, clock) == Done(answer)
            case Commit(e) => Decide(c, e, clock) == Commit(e) && answer == if ChangedSince(ws, m, k) then No else Yes
            case _ => true
  {
    AnswerStep(ws, acts, skew, k, id, answer);
    m, b, j, clock := 0, 0, k, acts[k].clock;
    match ws[k].calls[id].pc
    case ReadBody(meta) =>
      m := AttrsHistory(ws, acts, skew, k, id);
      StillThereIff(ws, acts, skew, m, k);
    case Judge(e) =>
      m, b := BodyHistory(ws, acts, skew, k, id);
    case Commit(e) =>
      m, b, j, clock := CommitHistory(ws, acts, skew, k, id);
      StillThereIff(ws, acts, skew, m, k);
    case _ =>
  }

  /** A conditional delete answers No exactly when the value at its body read is not the one given, or the
      object has changed since its attribute read.  Whether its lease has lapsed does not matter. */
  lemma DeleteRefusedIff(ws: seq<World>, acts: seq<Action>, skew: Skew, k: nat, id: CallId, answer: Answer, v: string)
    returns (m: nat, b: nat, j: nat, clock: Time)
    requires IsRun(ws, acts, skew) && Answers(ws, k, id, answer) && !ws[k].calls[id].pc.ReadAttrs?
    requires ws[k].calls[id].op == Delete(Some(v))
    ensures ReadAndJudged(ws, acts, skew, k, id, m, b, j, clock)
    ensures answer == if ChangedSince(ws, m, k)
                         || (!ws[k].calls[id].pc.ReadBody? && ws[b].obj.value.val != v) then No else Yes
  {
    AnswerStep(ws, acts, skew, k, id, answer);
    m, b, j, clock := HowItAnswers(ws, acts, skew, k, id, answer);
  }

  /** A swap answers No exactly when the value at its body read is not the one expected, or its lease had
      lapsed by the call's clock, or the object has changed since its attribute read. */
  lemma SwapRefusedIff(ws: seq<World>, acts: seq<Action>, skew: Skew, k: nat, id: CallId, answer: Answer)
    returns (m: nat, b: nat, j: nat, clock: Time)
    requires IsRun(ws, acts, skew) && Answers(ws, k, id, answer) && !ws[k].calls[id].pc.ReadAttrs?
    requires ws[k].calls[id].op.CompareAndSwap?
    ensures ReadAndJudged(ws, acts, skew, k, id, m, b, j, clock)
    ensures answer == if ChangedSince(ws, m, k)
                         || (!ws[k].calls[id].pc.ReadBody?
                             && (ws[b].obj.value.val != ws[k].calls[id].op.oldV
                                 || !LiveCell(CellOf(ws[b].obj), clock))) then No else Yes
  {
    AnswerStep(ws, acts, skew, k, id, answer);
    m, b, j, clock := HowItAnswers(ws, acts, skew, k, id, answer);
  }

  /** A renewal answers No exactly when what it read was permanent, or somebody else's, or had lapsed by the
      call's clock, or the object has changed since its attribute read. */
  lemma RenewalRefusedIff(ws: seq<World>, acts: seq<Action>, skew: Skew, k: nat, id: CallId, answer: Answer)
    returns (m: nat, b: nat, j: nat, clock: Time)
    requires IsRun(ws, acts, skew) && Answers(ws, k, id, answer) && !ws[k].calls[id].pc.ReadAttrs?
    requires ws[k].calls[id].op.Renew?
    ensures ReadAndJudged(ws, acts, skew, k, id, m, b, j, clock)
    ensures answer == if ChangedSince(ws, m, k)
                         || (!ws[k].calls[id].pc.ReadBody?
                             && (Expires(ws[b].obj.value).None?
                                 || ws[b].obj.value.owner != ws[k].calls[id].self
                                 || !LiveCell(CellOf(ws[b].obj), clock))) then No else Yes
  {
    AnswerStep(ws, acts, skew, k, id, answer);
    m, b, j, clock := HowItAnswers(ws, acts, skew, k, id, answer);
  }

  /** A claim that met an object answers No exactly when what it read was live by the call's clock, or the
      object has changed since its attribute read. */
  lemma ClaimRefusedIff(ws: seq<World>, acts: seq<Action>, skew: Skew, k: nat, id: CallId, answer: Answer)
    returns (m: nat, b: nat, j: nat, clock: Time)
    requires IsRun(ws, acts, skew) && Answers(ws, k, id, answer)
    requires !ws[k].calls[id].pc.Create? && !ws[k].calls[id].pc.ReadAttrs?
    requires ws[k].calls[id].op.PutIfAbsent?
    ensures ReadAndJudged(ws, acts, skew, k, id, m, b, j, clock)
    ensures answer == if ChangedSince(ws, m, k)
                         || (!ws[k].calls[id].pc.ReadBody? && LiveCell(CellOf(ws[b].obj), clock)) then No else Yes
  {
    AnswerStep(ws, acts, skew, k, id, answer);
    m, b, j, clock := HowItAnswers(ws, acts, skew, k, id, answer);
  }

  /** At its attribute read a call answers, negatively, exactly when no object is there. */
  lemma AttributeReadAnswersIff(ws: seq<World>, acts: seq<Action>, skew: Skew, k: nat, id: CallId)
    requires IsRun(ws, acts, skew) && k + 1 < |ws| && Running(ws[k], id) && ws[k].calls[id].pc.ReadAttrs?
    requires acts[k].Advance? && acts[k].id == id
    ensures (exists answer :: Answers(ws, k, id, answer)) <==> ws[k].obj.None?
    ensures ws[k].obj.None? ==> Answers(ws, k, id, if ws[k].calls[id].op.Get? then NotFound else No)
  {
    assert Step(ws[k], acts[k], ws[k + 1], skew);
    if ws[k].obj.None? {
      assert Answers(ws, k, id, Negative(ws[k].calls[id].op));
    }
  }

  /** A create request answers, with Yes, exactly when no object is there. */
  lemma CreateAnswersIff(ws: seq<World>, acts: seq<Action>, skew: Skew, k: nat, id: CallId)
    requires IsRun(ws, acts, skew) && k + 1 < |ws| && Running(ws[k], id) && ws[k].calls[id].pc.Create?
    requires acts[k].Advance? && acts[k].id == id
    ensures (exists answer :: Answers(ws, k, id, answer)) <==> ws[k].obj.None?
    ensures ws[k].obj.None? ==> Answers(ws, k, id, Yes)
  {
    assert Step(ws[k], acts[k], ws[k + 1], skew);
    if ws[k].obj.None? {
      assert Answers(ws, k, id, Yes);
    }
  }

  /** A delete without a value takes whatever is there, and always answers Yes. */
  lemma UnconditionalDelete(ws: seq<World>, acts: seq<Action>, skew: Skew, k: nat, id: CallId, answer: Answer)
    requires IsRun(ws, acts, skew) && Answers(ws, k, id, answer) && ws[k].calls[id].op == Delete(None)
    ensures answer == Yes && ws[k + 1].obj.None?
  {
    AnswerStep(ws, acts, skew, k, id, answer);
  }

  /** What a call that answers Yes leaves behind: its own value for a claim or a swap, the same value for a
      renewal, each under its own name and with its own lease from now; nothing for a delete. */
  lemma WhatYesLeaves(ws: seq<World>, acts: seq<Action>, skew: Skew, k: nat, id: CallId)
    requires IsRun(ws, acts, skew) && Answers(ws, k, id, Yes)
    ensures var c, o := ws[k].calls[id], ws[k + 1].obj;
            match c.op
            case Delete(_) => o.None?
            case Get => false
            case PutIfAbsent(v, ttl) =>
              CellOf(o) == Some(Entry(v, c.self, Deadline(WholeMilliseconds, ws[k].now, ttl)))
            case CompareAndSwap(_, v, ttl) =>
              CellOf(o) == Some(Entry(v, c.self, Deadline(WholeMilliseconds, ws[k].now, ttl)))
            case Renew(ttl) =>
              && ws[k].obj.Some? && ws[k].obj.value.owner == c.self
              && CellOf(o) == Some(Entry(ws[k].obj.value.val, c.self, Deadline(WholeMilliseconds, ws[k].now, ttl)))
  {
    AnswerStep(ws, acts, skew, k, id, Yes);
    var c := ws[k].calls[id];
    if !c.op.Delete? && !c.op.Get? {
      LeaseReadsBackIff(c, if c.pc.Commit? then c.pc.e.val else "", ws[k].now, ws[k].high + 1 + acts[k].bump);
    }
  }
}
