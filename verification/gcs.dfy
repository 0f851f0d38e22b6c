/**
 The Cloud Storage store (internal/provider/gcp/kv.go) as a state machine: one object, any number
 of calls in flight on it, and one server request or one clock reading per step.  The calls of
 every client interleave freely; nothing is atomic beyond a single server request.
 */
module GcsMachine {
  import opened Wrappers
  import opened Lease

  const DAY: int := 86_400 * SECOND

  /** One generation of the object.  `ttlMs` is the metadata field; absent or zero reads as permanent. */
  datatype Object = Object(gen: nat, val: string, owner: string, ttlMs: Option<nat>, updated: Time)

  /** What the attribute read returns; the body comes from a second, pinned read. */
  datatype Meta = Meta(gen: nat, owner: string, expires: Option<Time>)

  /** `entryState`: value, generation and lease as one call read them. */
  datatype EntryState = EntryState(val: string, gen: nat, owner: string, expires: Option<Time>)

  /** Where a call stands: the server request (or, for Judge, the local decision) it makes next. */
  datatype Pc =
    | Create                 // write if the object does not exist
    | ReadAttrs
    | ReadBody(meta: Meta)   // pinned to the generation the attributes named
    | Judge(e: EntryState)   // compare value, owner and lease against the local clock
    | Commit(e: EntryState)  // write or delete if still at the generation read
    | Remove                 // unconditional delete
    | Done(answer: Answer)

  datatype InFlight = InFlight(self: string, op: Op, pc: Pc)

  type CallId = nat

  /** `now` is the server's clock; `high` the largest generation ever issued for the object. */
  datatype World = World(now: Time, obj: Option<Object>, high: nat, calls: map<CallId, InFlight>)

  /** Bounds on a client's clock against the server's. */
  datatype Skew = Skew(ahead: nat, behind: nat)

  datatype Action =
    | Tick(elapsed: nat)
    | Begin(id: CallId, self: string, op: Op)
    | Advance(id: CallId, clock: Time, bump: nat)
    | Reap   // the bucket's lifecycle rule

  function TtlMs(ttl: int): Option<nat> {
    if ttl > 0 then Some(ttl / MILLISECOND) else None
  }

  function Expires(o: Object): Option<Time> {
    if o.ttlMs.Some? && o.ttlMs.value > 0 then Some(o.updated + o.ttlMs.value * MILLISECOND) else None
  }

  function MetaOf(o: Object): Meta {
    Meta(o.gen, o.owner, Expires(o))
  }

  function StateOf(o: Object): EntryState {
    EntryState(o.val, o.gen, o.owner, Expires(o))
  }

  /** The object as the reference sees it. */
  function CellOf(obj: Option<Object>): Cell {
    if obj.None? then None else Some(Entry(obj.value.val, obj.value.owner, Expires(obj.value)))
  }

  predicate LiveAt(w: World) {
    LiveCell(CellOf(w.obj), w.now)
  }

  function FirstPc(op: Op): Pc {
    match op
    case PutIfAbsent(_, _) => Create
    case CompareAndSwap(_, _, _) => ReadAttrs
    case Get => ReadAttrs
    case Delete(ifValue) => if ifValue.None? then Remove else ReadAttrs
    case Renew(ttl) => if ttl <= 0 then Done(Failed) else ReadAttrs
  }

  /** The negative answer a call gives when it finds nothing. */
  function Negative(op: Op): Answer {
    if op.Get? then NotFound else No
  }

  /** The local decision between the read and the conditional request. */
  function Decide(c: InFlight, e: EntryState, clock: Time): Pc {
    match c.op
    case PutIfAbsent(_, _) => if Live(e.expires, clock) then Done(No) else Commit(e)
    case CompareAndSwap(oldV, _, _) =>
      if !Live(e.expires, clock) || e.val != oldV then Done(No) else Commit(e)
    case Get => if !Live(e.expires, clock) then Done(NotFound) else Done(Found(e.val))
    case Delete(ifValue) =>
      if ifValue.Some? && e.val != ifValue.value then Done(No) else Commit(e)
    case Renew(_) =>
      if e.expires.None? || !Live(e.expires, clock) || e.owner != c.self then Done(No) else Commit(e)
  }

  /** What a successful conditional request leaves behind, as of `now`, at generation `gen`. */
  function Written(c: InFlight, val: string, now: Time, gen: nat): Option<Object> {
    match c.op
    case PutIfAbsent(v, ttl) => Some(Object(gen, v, c.self, TtlMs(ttl), now))
    case CompareAndSwap(_, v, ttl) => Some(Object(gen, v, c.self, TtlMs(ttl), now))
    case Renew(ttl) => Some(Object(gen, val, c.self, TtlMs(ttl), now))
    case Delete(_) => None
    case Get => None
  }

  function Store(w: World, o: Option<Object>): World {
    w.(obj := o, high := if o.Some? && o.value.gen > w.high then o.value.gen else w.high)
  }

  function Goto(w: World, id: CallId, pc: Pc): World
    requires id in w.calls
  {
    w.(calls := w.calls[id := w.calls[id].(pc := pc)])
  }

  /** One step of call `id`.  A new generation is any number above all earlier ones. */
  function Advanced(w: World, id: CallId, clock: Time, bump: nat): World
    requires id in w.calls && !w.calls[id].pc.Done?
  {
    var c := w.calls[id];
    var gen := w.high + 1 + bump;
    match c.pc
    case Create =>
      if w.obj.None? then Goto(Store(w, Written(c, "", w.now, gen)), id, Done(Yes))
      else Goto(w, id, ReadAttrs)
    case ReadAttrs =>
      if w.obj.None? then Goto(w, id, Done(Negative(c.op)))
      else Goto(w, id, ReadBody(MetaOf(w.obj.value)))
    case ReadBody(m) =>
      if w.obj.Some? && w.obj.value.gen == m.gen
      then Goto(w, id, Judge(EntryState(w.obj.value.val, m.gen, m.owner, m.expires)))
      else Goto(w, id, Done(Negative(c.op)))
    case Judge(e) =>
      Goto(w, id, Decide(c, e, clock))
    case Commit(e) =>
      if w.obj.Some? && w.obj.value.gen == e.gen
      then Goto(Store(w, Written(c, e.val, w.now, gen)), id, Done(Yes))
      else Goto(w, id, Done(No))
    case Remove =>
      Goto(w.(obj := None), id, Done(Yes))
  }

  predicate Enabled(w: World, a: Action, skew: Skew) {
    match a
    case Tick(_) => true
    case Begin(id, _, _) => id !in w.calls
    case Advance(id, clock, _) =>
      id in w.calls && !w.calls[id].pc.Done? && w.now - skew.behind <= clock <= w.now + skew.ahead
    case Reap => w.obj.Some? && w.now - w.obj.value.updated >= DAY
  }

  function Apply(w: World, a: Action, skew: Skew): World
    requires Enabled(w, a, skew)
  {
    match a
    case Tick(elapsed) => w.(now := w.now + elapsed)
    case Begin(id, self, op) => w.(calls := w.calls[id := InFlight(self, op, FirstPc(op))])
    case Advance(id, clock, bump) => Advanced(w, id, clock, bump)
    case Reap => w.(obj := None)
  }

  ghost predicate Init(w: World) {
    && w.calls == map[]
    && (w.obj.Some? ==> w.obj.value.gen <= w.high && w.obj.value.updated <= w.now)
  }

  ghost predicate Step(w: World, a: Action, w': World, skew: Skew) {
    Enabled(w, a, skew) && w' == Apply(w, a, skew)
  }

  /** Every finite run of any number of clients: `ws` are the states, `acts` the steps between them. */
  ghost predicate IsRun(ws: seq<World>, acts: seq<Action>, skew: Skew) {
    && |ws| == |acts| + 1
    && Init(ws[0])
    && forall i {:trigger acts[i]} :: 0 <= i < |acts| ==> Step(ws[i], acts[i], ws[i + 1], skew)
  }

  /** Call `id` is in flight in state `w`. */
  predicate Running(w: World, id: CallId) {
    id in w.calls && !w.calls[id].pc.Done?
  }

  // ---- what every step keeps ----

  /** A snapshot never disagrees with the object while the generation is still the current one. */
  ghost predicate SnapshotOk(w: World, c: InFlight, skew: Skew) {
    match c.pc
    case Create => c.op.PutIfAbsent?
    case ReadAttrs => !(c.op.Delete? && c.op.ifValue.None?) && (c.op.Renew? ==> c.op.ttl > 0)
    case ReadBody(m) =>
      && !(c.op.Delete? && c.op.ifValue.None?) && (c.op.Renew? ==> c.op.ttl > 0)
      && m.gen <= w.high
      && (w.obj.Some? && w.obj.value.gen == m.gen ==> m == MetaOf(w.obj.value))
    case Judge(e) =>
      && !(c.op.Delete? && c.op.ifValue.None?) && (c.op.Renew? ==> c.op.ttl > 0)
      && e.gen <= w.high
      && (w.obj.Some? && w.obj.value.gen == e.gen ==> e == StateOf(w.obj.value))
    case Commit(e) =>
      && e.gen <= w.high
      && (w.obj.Some? && w.obj.value.gen == e.gen ==> e == StateOf(w.obj.value))
      && JudgedOk(w, c, e, skew)
    case Remove => c.op == Delete(None)
    case Done(_) => true
  }

  /** What the local decision established before a conditional request is sent. */
  ghost predicate JudgedOk(w: World, c: InFlight, e: EntryState, skew: Skew) {
    match c.op
    case PutIfAbsent(_, _) => e.expires.Some? && e.expires.value <= w.now + skew.ahead
    case CompareAndSwap(oldV, _, _) => e.val == oldV
    case Get => false
    case Delete(ifValue) => ifValue.Some? && e.val == ifValue.value
    case Renew(ttl) => ttl > 0 && e.expires.Some? && e.owner == c.self
  }

  ghost predicate Inv(w: World, skew: Skew) {
    && (w.obj.Some? ==> w.obj.value.gen <= w.high && w.obj.value.updated <= w.now)
    && forall id :: id in w.calls ==> SnapshotOk(w, w.calls[id], skew)
  }

  /** The object only ever moves forward: a changed object is a new generation, stamped now and
      live, or it is gone. */
  ghost predicate Forward(w: World, w': World) {
    && w.now <= w'.now && w.high <= w'.high && w.calls.Keys <= w'.calls.Keys
    && (w'.obj != w.obj && w'.obj.Some? ==>
          w.high < w'.obj.value.gen <= w'.high && w'.obj.value.updated == w'.now && LiveAt(w'))
  }

  lemma WrittenIsLive(c: InFlight, val: string, now: Time, gen: nat)
    ensures var o := Written(c, val, now, gen);
            o.Some? ==> o.value.gen == gen && o.value.updated == now && LiveCell(CellOf(o), now)
  {
  }

  lemma StepMovesForward(w: World, a: Action, w': World, skew: Skew)
    requires Step(w, a, w', skew)
    ensures Forward(w, w')
  {
    if a.Advance? {
      var c := w.calls[a.id];
      WrittenIsLive(c, if c.pc.Commit? then c.pc.e.val else "", w.now, w.high + 1 + a.bump);
    }
  }

  /** A step leaves every other call's record alone. */
  lemma StepIsLocal(w: World, a: Action, w': World, skew: Skew, id: CallId)
    requires Step(w, a, w', skew) && id in w.calls && !(a.Advance? && a.id == id)
    ensures id in w'.calls && w'.calls[id] == w.calls[id]
  {
  }

  lemma OthersSnapshotOk(w: World, w': World, c: InFlight, skew: Skew)
    requires SnapshotOk(w, c, skew) && Forward(w, w')
    ensures SnapshotOk(w', c, skew)
  {
  }

  lemma OwnSnapshotOk(w: World, id: CallId, clock: Time, bump: nat, skew: Skew)
    requires Inv(w, skew) && Enabled(w, Advance(id, clock, bump), skew)
    ensures SnapshotOk(Advanced(w, id, clock, bump), Advanced(w, id, clock, bump).calls[id], skew)
  {
    var c := w.calls[id];
    assert SnapshotOk(w, c, skew);
    match c.pc
    case Judge(e) =>
      assert Advanced(w, id, clock, bump).obj == w.obj;
    case _ =>
  }

  /** The invariant survives every step of every client. */
  lemma StepKeepsInv(w: World, a: Action, w': World, skew: Skew)
    requires Inv(w, skew) && Step(w, a, w', skew)
    ensures Inv(w', skew)
  {
    StepMovesForward(w, a, w', skew);
    forall id | id in w'.calls
      ensures SnapshotOk(w', w'.calls[id], skew)
    {
      if a.Advance? && a.id == id {
        OwnSnapshotOk(w, id, a.clock, a.bump, skew);
      } else if id in w.calls {
        StepIsLocal(w, a, w', skew, id);
        OthersSnapshotOk(w, w', w.calls[id], skew);
      }
    }
  }

  lemma {:induction false} RunKeepsInv(ws: seq<World>, acts: seq<Action>, skew: Skew, n: nat)
    requires IsRun(ws, acts, skew) && n < |ws|
    ensures Inv(ws[n], skew)
  {
    if n > 0 {
      RunKeepsInv(ws, acts, skew, n - 1);
      assert Step(ws[n - 1], acts[n - 1], ws[n - 1 + 1], skew);
      StepKeepsInv(ws[n - 1], acts[n - 1], ws[n], skew);
    }
  }
}
