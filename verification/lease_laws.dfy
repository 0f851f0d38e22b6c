/**
 What the store promises, told by what its callers see: their own arguments and the answers they got.
 The reference of module Lease is proved to keep these laws over every run.
 */
module LeaseLaws {
  import opened Wrappers
  import opened Lease

  function AnswerAt(r: Rounding, c: Cell, calls: seq<Call>, i: nat): Answer
    requires i < |calls|
  {
    Outcome(r, After(r, c, calls, i), calls[i]).1
  }

  /** What the answers so far say of a key that was empty at first: nothing is there, or what call `grant`
      put there, last written by call `write`. */
  datatype Standing = Gone | Held(grant: nat, write: nat)

  function History(r: Rounding, calls: seq<Call>, n: nat): Standing
    requires n <= |calls|
  {
    if n == 0 then Gone
    else
      var before := History(r, calls, n - 1);
      if AnswerAt(r, None, calls, n - 1) != Yes then before
      else
        match calls[n - 1].op
        case PutIfAbsent(_, _) => Held(n - 1, n - 1)
        case CompareAndSwap(_, _, _) => Held(n - 1, n - 1)
        case Renew(_) => if before.Held? then Held(before.grant, n - 1) else before
        case Delete(_) => Gone
        case Get => before
  }

  predicate Grants(op: Op) {
    op.PutIfAbsent? || op.CompareAndSwap?
  }

  /** The value a claim or a swap puts there. */
  function Put(op: Op): string
    requires Grants(op)
  {
    if op.PutIfAbsent? then op.val else op.newV
  }

  predicate WellFormed(calls: seq<Call>, h: Standing) {
    h.Held? ==>
      && h.grant <= h.write < |calls| && Grants(calls[h.grant].op)
      && (h.write == h.grant || calls[h.write].op.Renew?)
  }

  /** Until when, by the last write. */
  function Until(r: Rounding, calls: seq<Call>, h: Standing): Option<Time>
    requires h.Held? && WellFormed(calls, h)
  {
    Deadline(r, calls[h.write].anchor, calls[h.write].op.ttl)
  }

  /** What is there still stands at `judge`: it is permanent, or its lease runs. */
  predicate Stands(r: Rounding, calls: seq<Call>, h: Standing, judge: Time)
    requires WellFormed(calls, h)
  {
    h.Held? && Live(Until(r, calls, h), judge)
  }

  /** The store holds what its answers have said it holds. */
  lemma {:induction false} StoreHoldsItsHistory(r: Rounding, calls: seq<Call>, n: nat)
    requires n <= |calls|
    ensures var h := History(r, calls, n);
            && WellFormed(calls, h) && (h.Held? ==> h.write < n)
            && After(r, None, calls, n) ==
               if h.Gone? then None
               else Some(Entry(Put(calls[h.grant].op), calls[h.grant].self, Until(r, calls, h)))
  {
    if n > 0 {
      StoreHoldsItsHistory(r, calls, n - 1);
    }
  }

  /** A claim succeeds exactly when nothing stands: the key was never put or was deleted, or its lease is over. */
  lemma ClaimLaw(r: Rounding, calls: seq<Call>, n: nat)
    requires n < |calls| && calls[n].op.PutIfAbsent?
    ensures WellFormed(calls, History(r, calls, n))
    ensures AnswerAt(r, None, calls, n) == if Stands(r, calls, History(r, calls, n), calls[n].judge) then No else Yes
  {
    StoreHoldsItsHistory(r, calls, n);
  }

  /** A swap succeeds exactly when something stands and was put there with the value it names. */
  lemma SwapLaw(r: Rounding, calls: seq<Call>, n: nat)
    requires n < |calls| && calls[n].op.CompareAndSwap?
    ensures WellFormed(calls, History(r, calls, n))
    ensures var h := History(r, calls, n);
            AnswerAt(r, None, calls, n) ==
            if Stands(r, calls, h, calls[n].judge) && Put(calls[h.grant].op) == calls[n].op.oldV then Yes else No
  {
    StoreHoldsItsHistory(r, calls, n);
  }

  /** A read finds the value put there last, as long as it stands. */
  lemma GetLaw(r: Rounding, calls: seq<Call>, n: nat)
    requires n < |calls| && calls[n].op.Get?
    ensures WellFormed(calls, History(r, calls, n))
    ensures var h := History(r, calls, n);
            AnswerAt(r, None, calls, n) ==
            if Stands(r, calls, h, calls[n].judge) then Found(Put(calls[h.grant].op)) else NotFound
  {
    StoreHoldsItsHistory(r, calls, n);
  }

  /** A delete without a value always succeeds.  One with a value succeeds exactly when that value was put
      there last, whether it still stands or not; so never on a missing key. */
  lemma DeleteLaw(r: Rounding, calls: seq<Call>, n: nat)
    requires n < |calls| && calls[n].op.Delete?
    ensures WellFormed(calls, History(r, calls, n))
    ensures var h, ifValue := History(r, calls, n), calls[n].op.ifValue;
            AnswerAt(r, None, calls, n) ==
            if ifValue.None? || (h.Held? && Put(calls[h.grant].op) == ifValue.value) then Yes else No
  {
    StoreHoldsItsHistory(r, calls, n);
  }

  /** A renewal succeeds exactly when a lease stands and its caller is the one who was granted it. */
  lemma RenewLaw(r: Rounding, calls: seq<Call>, n: nat)
    requires n < |calls| && calls[n].op.Renew?
    ensures WellFormed(calls, History(r, calls, n))
    ensures var h := History(r, calls, n);
            AnswerAt(r, None, calls, n) ==
            if calls[n].op.ttl <= 0 then Failed
            else if Stands(r, calls, h, calls[n].judge) && Until(r, calls, h).Some?
                    && calls[h.grant].self == calls[n].self then Yes
            else No
  {
    StoreHoldsItsHistory(r, calls, n);
  }

  /** Any answer but Yes leaves the key as it was. */
  lemma OnlyYesChanges(r: Rounding, c: Cell, calls: seq<Call>, i: nat)
    requires i < |calls| && AnswerAt(r, c, calls, i) != Yes
    ensures After(r, c, calls, i + 1) == After(r, c, calls, i)
  {
  }

  /** Of any number of swaps from one value to others, in whatever order they are served, exactly the first
      succeeds; and then its value, owner and lease are what is there. */
  lemma {:induction false} OneSwapWinsTheRace(r: Rounding, c: Cell, calls: seq<Call>, n: nat, oldV: string)
    requires 0 < n <= |calls| && LiveCell(c, calls[0].judge) && c.value.val == oldV
    requires forall i | 0 <= i < n ::
               calls[i].op.CompareAndSwap? && calls[i].op.oldV == oldV && calls[i].op.newV != oldV
    ensures forall i | 0 <= i < n :: AnswerAt(r, c, calls, i) == if i == 0 then Yes else No
    ensures After(r, c, calls, n) ==
            Some(Entry(calls[0].op.newV, calls[0].self, Deadline(r, calls[0].anchor, calls[0].op.ttl)))
  {
    if n > 1 {
      OneSwapWinsTheRace(r, c, calls, n - 1, oldV);
      assert AnswerAt(r, c, calls, n - 1) == No;
    }
  }

  /** While the winner's lease runs, a read after the race finds its value, and of all callers it alone can
      renew it, if it is a lease. */
  lemma TheWinnerHolds(r: Rounding, c: Cell, calls: seq<Call>, n: nat, oldV: string)
    requires 0 < n < |calls| && LiveCell(c, calls[0].judge) && c.value.val == oldV
    requires forall i | 0 <= i < n ::
               calls[i].op.CompareAndSwap? && calls[i].op.oldV == oldV && calls[i].op.newV != oldV
    requires Live(Deadline(r, calls[0].anchor, calls[0].op.ttl), calls[n].judge)
    ensures calls[n].op.Get? ==> AnswerAt(r, c, calls, n) == Found(calls[0].op.newV)
    ensures calls[n].op.Renew? && calls[n].op.ttl > 0 ==>
              (AnswerAt(r, c, calls, n) == Yes <==>
               calls[n].self == calls[0].self && Deadline(r, calls[0].anchor, calls[0].op.ttl).Some?)
  {
    OneSwapWinsTheRace(r, c, calls, n, oldV);
  }
}
