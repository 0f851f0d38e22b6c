/**
 The key/value contract every backend is held to (internal/provider/kv.go), stated once for a
 single key as an atomic reference.  A backend differs from it in two ways only: which clock it
 judges liveness by, and how it rounds the length of a lease.
 */
module Lease {
  import opened Wrappers

  /** Instants and durations, in nanoseconds. */
  type Time = int

  const MILLISECOND: int := 1_000_000
  const SECOND: int := 1_000_000_000

  /** What a key holds.  No expiry means a permanent key. */
  datatype Entry = Entry(val: string, owner: string, expires: Option<Time>)

  type Cell = Option<Entry>

  datatype Op =
    | PutIfAbsent(val: string, ttl: int)
    | CompareAndSwap(oldV: string, newV: string, ttl: int)
    | Get
    | Delete(ifValue: Option<string>)
    | Renew(ttl: int)

  datatype Answer = Yes | No | Found(val: string) | NotFound | Failed

  /** How a backend stores the length of a lease. */
  datatype Rounding = Exact | WholeMilliseconds | WholeSeconds

  predicate Live(expires: Option<Time>, now: Time) {
    expires.None? || expires.value > now
  }

  predicate LiveCell(c: Cell, now: Time) {
    c.Some? && Live(c.value.expires, now)
  }

  /** The expiry a backend records for a write anchored at `anchor`. */
  function Deadline(r: Rounding, anchor: Time, ttl: int): (d: Option<Time>)
    ensures d.Some? ==> ttl > 0 && anchor <= d.value <= anchor + ttl
  {
    if ttl <= 0 then None
    else
      match r
      case Exact => Some(anchor + ttl)
      case WholeMilliseconds =>
        if ttl / MILLISECOND == 0 then None else Some(anchor + ttl / MILLISECOND * MILLISECOND)
      case WholeSeconds => Some(anchor + ttl / SECOND * SECOND)
  }

  /** One atomic operation: liveness judged at `judge`, a new lease anchored at `anchor`. */
  function Reference(r: Rounding, c: Cell, op: Op, self: string, judge: Time, anchor: Time): (Cell, Answer) {
    match op
    case PutIfAbsent(val, ttl) =>
      if LiveCell(c, judge) then (c, No) else (Some(Entry(val, self, Deadline(r, anchor, ttl))), Yes)
    case CompareAndSwap(oldV, newV, ttl) =>
      if LiveCell(c, judge) && c.value.val == oldV
      then (Some(Entry(newV, self, Deadline(r, anchor, ttl))), Yes)
      else (c, No)
    case Get =>
      (c, if LiveCell(c, judge) then Found(c.value.val) else NotFound)
    case Delete(ifValue) =>
      if ifValue.None? then (None, Yes)
      else if c.Some? && c.value.val == ifValue.value then (None, Yes)
      else (c, No)
    case Renew(ttl) =>
      if ttl <= 0 then (c, Failed)
      else if LiveCell(c, judge) && c.value.expires.Some? && c.value.owner == self
      then (Some(c.value.(expires := Deadline(r, anchor, ttl))), Yes)
      else (c, No)
  }

  // ---- what the reference promises ----

  /** A positive ttl always records a lease, except below one millisecond where milliseconds are stored. */
  lemma PositiveTtlIsALease(r: Rounding, anchor: Time, ttl: int)
    requires ttl > 0
    ensures Deadline(r, anchor, ttl).Some? <==> (r.WholeMilliseconds? ==> ttl >= MILLISECOND)
  {
    if r.WholeMilliseconds? && ttl >= MILLISECOND {
      assert ttl / MILLISECOND >= 1;
    }
  }

  function Unit(r: Rounding): int {
    match r
    case Exact => 1
    case WholeMilliseconds => MILLISECOND
    case WholeSeconds => SECOND
  }

  /** Rounding only ever shortens a lease, by less than its unit, and not at all for whole units. */
  lemma RoundingLoss(r: Rounding, anchor: Time, ttl: int)
    requires Deadline(r, anchor, ttl).Some?
    ensures var d := Deadline(r, anchor, ttl).value;
            anchor + ttl - Unit(r) < d <= anchor + ttl && (ttl % Unit(r) == 0 ==> d == anchor + ttl)
  {
  }

  /** A call on the key: who makes it, and the two instants it is judged and anchored at. */
  datatype Call = Call(op: Op, self: string, judge: Time, anchor: Time)

  function Outcome(r: Rounding, c: Cell, k: Call): (Cell, Answer) {
    Reference(r, c, k.op, k.self, k.judge, k.anchor)
  }

  /** The key after the first `n` calls. */
  function After(r: Rounding, c: Cell, calls: seq<Call>, n: nat): Cell
    requires n <= |calls|
  {
    if n == 0 then c else Outcome(r, After(r, c, calls, n - 1), calls[n - 1]).0
  }

  predicate Succeeds(r: Rounding, c: Cell, calls: seq<Call>, i: nat)
    requires i < |calls|
  {
    Outcome(r, After(r, c, calls, i), calls[i]).1 == Yes
  }

  /** Only a Delete, or a CompareAndSwap that succeeds, ever changes a permanent key. */
  lemma {:induction false} PermanentKeyPersists(r: Rounding, c: Cell, calls: seq<Call>, n: nat)
    requires c.Some? && c.value.expires.None? && n <= |calls|
    requires forall i | 0 <= i < n ::
               (calls[i].op.Delete? || calls[i].op.CompareAndSwap?) ==> !Succeeds(r, c, calls, i)
    ensures After(r, c, calls, n) == c
  {
    if n > 0 {
      PermanentKeyPersists(r, c, calls, n - 1);
      var op := calls[n - 1].op;
      assert op.CompareAndSwap? || op.Delete? ==> !Succeeds(r, c, calls, n - 1);
    }
  }

  /** The reason the store exists.  However many claims race for a free key while the first one's
      lease runs, in whatever order they are served, exactly the first is granted. */
  lemma {:induction false} ExactlyOneWinsTheRace(r: Rounding, c: Cell, calls: seq<Call>, n: nat)
    requires 0 < n <= |calls| && forall i | 0 <= i < n :: calls[i].op.PutIfAbsent?
    requires !LiveCell(c, calls[0].judge)
    requires forall i | 0 < i < n :: Live(Deadline(r, calls[0].anchor, calls[0].op.ttl), calls[i].judge)
    ensures forall i | 0 <= i < n :: Succeeds(r, c, calls, i) <==> i == 0
    ensures After(r, c, calls, n) ==
            Some(Entry(calls[0].op.val, calls[0].self, Deadline(r, calls[0].anchor, calls[0].op.ttl)))
  {
    if n > 1 {
      ExactlyOneWinsTheRace(r, c, calls, n - 1);
      assert !Succeeds(r, c, calls, n - 1);
    }
  }

  /** A call takes the key from its holder: a granted claim or swap, or a delete. */
  predicate Takes(r: Rounding, c: Cell, calls: seq<Call>, i: nat)
    requires i < |calls|
  {
    !calls[i].op.Renew? && Succeeds(r, c, calls, i)
  }

  /** Call `w` is the last of the first `n` to write the key: its grant, or the last successful renewal. */
  ghost predicate LastWrite(r: Rounding, c: Cell, calls: seq<Call>, n: nat, w: nat)
    requires n <= |calls|
  {
    && w < n && (w == 0 || (calls[w].op.Renew? && Succeeds(r, c, calls, w)))
    && forall i | w < i < n :: calls[i].op.Renew? ==> !Succeeds(r, c, calls, i)
  }

  lemma NotTaken(r: Rounding, c: Cell, k: Call)
    requires c.Some? && (k.op.Renew? || Outcome(r, c, k).1 != Yes)
    ensures Outcome(r, c, k).0 ==
            if Outcome(r, c, k).1 == Yes then Some(c.value.(expires := Deadline(r, k.anchor, k.op.ttl))) else c
  {
  }

  /** Until somebody takes it, a key granted by the first call keeps its value and holder, and its expiry
      is the one its last write recorded. */
  lemma {:induction false} HeldUntilTaken(r: Rounding, c: Cell, calls: seq<Call>, n: nat) returns (w: nat)
    requires 0 < n <= |calls| && calls[0].op.PutIfAbsent? && Succeeds(r, c, calls, 0)
    requires forall i | 0 < i < n :: !Takes(r, c, calls, i)
    ensures LastWrite(r, c, calls, n, w)
    ensures After(r, c, calls, n) ==
            Some(Entry(calls[0].op.val, calls[0].self, Deadline(r, calls[w].anchor, calls[w].op.ttl)))
  {
    w := 0;
    if n > 1 {
      w := HeldUntilTaken(r, c, calls, n - 1);
      assert !Takes(r, c, calls, n - 1);
      NotTaken(r, After(r, c, calls, n - 1), calls[n - 1]);
      if calls[n - 1].op.Renew? && Succeeds(r, c, calls, n - 1) {
        w := n - 1;
      }
    }
  }

  /** Exclusivity: a claim that ends a tenure is made, by a clock at most `lead` fast, no earlier than the
      last write plus its lease as stored, less that lead; so by less than the unit of storage earlier
      than the lease asked for, and not at all if that was whole.  A permanent key is never claimed. */
  lemma NextClaimWaits(r: Rounding, c: Cell, calls: seq<Call>, n: nat, at: Time, lead: nat) returns (w: nat)
    requires 0 < n < |calls| && calls[0].op.PutIfAbsent? && Succeeds(r, c, calls, 0)
    requires forall i | 0 < i < n :: !Takes(r, c, calls, i)
    requires calls[n].op.PutIfAbsent? && Succeeds(r, c, calls, n) && calls[n].judge <= at + lead
    ensures LastWrite(r, c, calls, n, w)
    ensures var anchor, ttl := calls[w].anchor, calls[w].op.ttl;
            && ttl > 0 && at > anchor + ttl - Unit(r) - lead
            && (ttl % Unit(r) == 0 ==> at >= anchor + ttl - lead)
  {
    w := HeldUntilTaken(r, c, calls, n);
    RoundingLoss(r, calls[w].anchor, calls[w].op.ttl);
  }
}
