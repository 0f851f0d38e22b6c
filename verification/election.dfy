/**
 Seed election (e2e/tikv/aws/docker/tikv-pd/pd.star) as a state machine: any number of PD replicas
 running resolve_pd, await_seed and pd_pre_stop against one leased key.

 The store's positive answers are atomic; its negative answers may be given for no reason; liveness is
 judged, and a lease may begin, by a clock within the skew; and a lapsed entry may be removed by such a
 clock.  ElectionStore shows that each backend offers this.
 */
module Election {
  import opened Wrappers
  import opened Lease

  const SEED_TTL: int := 180 * SECOND
  const ELECT_WAIT: int := 180 * SECOND
  const SERVE_WAIT: int := 300 * SECOND

  /** How far a replica's clock may be ahead of, or behind, the store's; and how long before the store
      serves a claim its lease may begin: not at all where the store stamps the write, but where the
      writer does, for as long as the request takes, and its clock lags, and a second is rounded away. */
  datatype Skew = Skew(ahead: nat, behind: nat, lag: nat)

  /** The seed key: who holds it, until when, and which successful put (epoch) wrote it. */
  datatype Seed = Seed(holder: string, expires: Time, epoch: nat)

  /** What the second kv_get of await_seed returned: nothing, or a holder and the epoch it was read in. */
  type Fetched = Option<Seed>

  datatype Pc =
    | Resolving
    | Claiming
    | AwaitingElection(deadline: Time)
    | Fetching
    | AwaitingService(seed: Fetched, since: Time)
    | Heard(seed: Fetched)
    | Releasing(seed: Fetched, since: Time)
    | Bootstrapping
    | Joining
    | Raised
    | Stopped

  datatype Replica = Replica(ip: string, pc: Pc)

  /** One successful put: the address that won, when, and until when. */
  datatype Epoch = Epoch(holder: string, start: Time, expires: Time)

  /** A decision to bootstrap: the address it names and the epoch of the put or get it rests on. */
  datatype Decision = Decision(address: string, epoch: nat)

  /** Why a script ended an epoch. */
  datatype Cause = OwnStop(ip: string) | Abandoned(seed: Fetched, since: Time)

  datatype World = World(
    now: Time,
    seed: Option<Seed>,
    replicas: map<nat, Replica>,
    epochs: seq<Epoch>,
    decisions: seq<Decision>,
    released: map<nat, (Cause, Time)>)   // epoch -> why, and when

  datatype Action =
    | Tick(elapsed: nat)
    | Reap                                 // a backend removes a lapsed entry, some day
    | Start(id: nat, ip: string)           // a new task
    | Retry(id: nat)                       // spawn() resolves again
    | Branch(id: nat, settled: bool)       // (A)/(B) decide without the lease
    | Claim(id: nat, refuse: bool, anchor: Time)   // kv_put_if_absent; the lease runs from anchor
    | Poll(id: nat, blind: bool)           // kv_get != None, every two seconds
    | Fetch(id: nat, blind: bool)          // seed = kv_get(...)
    | Served(id: nat)                      // the seed answered
    | Conclude(id: nat)                    // seed == ip, or follow it
    | Silent(id: nat, abandoned: bool)     // it did not, for five minutes
    | Release(id: nat, refuse: bool)       // kv_delete(if_value = seed)
    | PreStop(id: nat, refuse: bool)       // kv_delete(if_value = ip)

  predicate Claimable(w: World, skew: Skew) {
    w.seed.None? || !Live(Some(w.seed.value.expires), w.now + skew.ahead)
  }

  predicate Visible(w: World, skew: Skew) {
    w.seed.Some? && Live(Some(w.seed.value.expires), w.now - skew.behind)
  }

  function Goto(w: World, id: nat, pc: Pc): World
    requires id in w.replicas
  {
    w.(replicas := w.replicas[id := w.replicas[id].(pc := pc)])
  }

  /** `kv_delete(key, if_value)`: without a value to compare, the builtin deletes whatever is there. */
  predicate Deletes(w: World, ifValue: Option<string>) {
    w.seed.Some? && (ifValue.Some? ==> w.seed.value.holder == ifValue.value)
  }

  function HolderOf(seed: Fetched): Option<string> {
    if seed.Some? then Some(seed.value.holder) else None
  }

  predicate At(w: World, id: nat, pc: Pc) {
    id in w.replicas && w.replicas[id].pc == pc
  }

  /** A step of a replica that is already there. */
  predicate IsOwn(a: Action) {
    !a.Tick? && !a.Reap? && !a.Start?
  }

  /** Where a replica must stand for a step of its own. */
  predicate Ready(pc: Pc, a: Action, now: Time) {
    match a
    case Retry(_) => pc.Raised? || pc.Bootstrapping? || pc.Joining? || pc.Stopped?
    case Branch(_, _) => pc.Resolving?
    case Claim(_, _, _) => pc.Claiming?
    case Poll(_, _) => pc.AwaitingElection?
    case Fetch(_, _) => pc.Fetching?
    case Served(_) => pc.AwaitingService?
    case Conclude(_) => pc.Heard?
    case Silent(_, _) => pc.AwaitingService? && now >= pc.since + SERVE_WAIT
    case Release(_, _) => pc.Releasing?
    case PreStop(_, _) => pc.Bootstrapping? || pc.Joining?
    case _ => false
  }

  predicate Enabled(w: World, a: Action, skew: Skew) {
    match a
    case Tick(_) => true
    case Reap => w.seed.Some? && w.seed.value.expires <= w.now + skew.ahead
    case Start(id, _) => id !in w.replicas
    case _ =>
      && a.id in w.replicas && Ready(w.replicas[a.id].pc, a, w.now)
      && (a.Claim? ==> w.now - skew.lag <= a.anchor <= w.now + skew.ahead)
  }

  predicate Wins(w: World, a: Action, skew: Skew) {
    a.Claim? && !a.refuse && Claimable(w, skew)
  }

  function NextPc(w: World, r: Replica, a: Action, skew: Skew): Pc
    requires Ready(r.pc, a, w.now)
  {
    match a
    case Retry(_) => Resolving
    case Branch(_, settled) => if settled then Joining else Claiming
    case Claim(_, _, _) => if Wins(w, a, skew) then Bootstrapping else AwaitingElection(w.now + ELECT_WAIT)
    case Poll(_, blind) =>
      if !blind && Visible(w, skew) then Fetching else if w.now >= r.pc.deadline then Raised else r.pc
    case Fetch(_, blind) => AwaitingService(if !blind && Visible(w, skew) then w.seed else None, w.now)
    case Served(_) => Heard(r.pc.seed)
    case Conclude(_) => if HolderOf(r.pc.seed) == Some(r.ip) then Bootstrapping else Joining
    case Silent(_, abandoned) => if abandoned then Releasing(r.pc.seed, r.pc.since) else Raised
    case Release(_, _) => Raised
    case PreStop(_, _) => Stopped
    case _ => r.pc
  }

  /** Why a step of replica `r` ends the current epoch, if it does. */
  function Ends(w: World, r: Replica, a: Action): Option<Cause> {
    if a.Release? && r.pc.Releasing? && !a.refuse && Deletes(w, HolderOf(r.pc.seed)) then
      Some(Abandoned(r.pc.seed, r.pc.since))
    else if a.PreStop? && !a.refuse && Deletes(w, Some(r.ip)) then
      Some(OwnStop(r.ip))
    else None
  }

  /** The decision to bootstrap a step of replica `r` makes, if it does. */
  function Decides(w: World, r: Replica, a: Action, skew: Skew): Option<Decision> {
    if Wins(w, a, skew) then Some(Decision(r.ip, |w.epochs|))
    else if a.Conclude? && r.pc.Heard? && HolderOf(r.pc.seed) == Some(r.ip) then
      Some(Decision(r.ip, r.pc.seed.value.epoch))
    else None
  }

  /** What a replica's own step does to the key and to the history of epochs. */
  function OnStore(w: World, r: Replica, a: Action, skew: Skew): World {
    if Wins(w, a, skew) then
      w.(seed := Some(Seed(r.ip, a.anchor + SEED_TTL, |w.epochs|)),
         epochs := w.epochs + [Epoch(r.ip, w.now, a.anchor + SEED_TTL)])
    else if Ends(w, r, a).Some? then
      w.(seed := None, released := w.released[w.seed.value.epoch := (Ends(w, r, a).value, w.now)])
    else w
  }

  function Apply(w: World, a: Action, skew: Skew): World
    requires Enabled(w, a, skew)
  {
    match a
    case Tick(elapsed) => w.(now := w.now + elapsed)
    case Reap => w.(seed := None)
    case Start(id, ip) => w.(replicas := w.replicas[id := Replica(ip, Resolving)])
    case _ =>
      var r := w.replicas[a.id];
      var d := Decides(w, r, a, skew);
      OnStore(w, r, a, skew).(
        replicas := w.replicas[a.id := r.(pc := NextPc(w, r, a, skew))],
        decisions := if d.Some? then w.decisions + [d.value] else w.decisions)
  }

  /** A cluster starting from an empty key. */
  ghost predicate Init(w: World) {
    w.seed.None? && w.replicas == map[] && w.epochs == [] && w.decisions == [] && w.released == map[]
  }

  ghost predicate Step(w: World, a: Action, w': World, skew: Skew) {
    Enabled(w, a, skew) && w' == Apply(w, a, skew)
  }

  ghost predicate IsRun(ws: seq<World>, acts: seq<Action>, skew: Skew) {
    && |ws| == |acts| + 1
    && Init(ws[0])
    && forall i {:trigger acts[i]} :: 0 <= i < |acts| ==> Step(ws[i], acts[i], ws[i + 1], skew)
  }

  // ---- what every step of every replica keeps ----

  /** A seed value read from the store belongs to the epoch it was read in. */
  ghost predicate SeedOk(w: World, s: Seed) {
    s.epoch < |w.epochs| && s.holder == w.epochs[s.epoch].holder && s.expires == w.epochs[s.epoch].expires
  }

  /** What a replica remembers of the key was there at `since`. */
  ghost predicate MemoryOk(w: World, seed: Fetched, since: Time) {
    since <= w.now && (seed.Some? ==> SeedOk(w, seed.value) && w.epochs[seed.value.epoch].start <= since)
  }

  ghost predicate PcOk(w: World, pc: Pc) {
    match pc
    case AwaitingService(seed, since) => MemoryOk(w, seed, since)
    case Heard(seed) => MemoryOk(w, seed, w.now)
    case Releasing(seed, since) => MemoryOk(w, seed, since) && since + SERVE_WAIT <= w.now
    case _ => true
  }

  /** Why and when a script ended epoch `e`. */
  ghost predicate ReleaseOk(w: World, e: nat, cause: Cause, at: Time) {
    && e < |w.epochs|
    && match cause
       case OwnStop(ip) => ip == w.epochs[e].holder
       case Abandoned(seed, since) =>
         && since + SERVE_WAIT <= at
         && (seed.Some? ==> SeedOk(w, seed.value) && w.epochs[seed.value.epoch].start <= since
                            && seed.value.holder == w.epochs[e].holder && seed.value.epoch <= e)
  }

  ghost predicate KeyOk(w: World, skew: Skew) {
    && (w.seed.Some? ==> SeedOk(w, w.seed.value) && w.seed.value.epoch == |w.epochs| - 1
                         && w.seed.value.epoch !in w.released)
    && (w.seed.None? && w.epochs != [] && |w.epochs| - 1 !in w.released
        ==> w.epochs[|w.epochs| - 1].expires <= w.now + skew.ahead)
  }

  /** Epoch `e` began in the past, for the length of a lease give or take the bounds on clocks and delay. */
  ghost predicate EpochOk(w: World, skew: Skew, e: nat)
    requires e < |w.epochs|
  {
    var epoch := w.epochs[e];
    epoch.start <= w.now && epoch.start + SEED_TTL - skew.lag <= epoch.expires <= epoch.start + SEED_TTL + skew.ahead
  }

  /** Epoch `e` was over, or released, before the next one began. */
  ghost predicate SuccessionOk(w: World, skew: Skew, e: nat)
    requires e + 1 < |w.epochs|
  {
    && w.epochs[e].start <= w.epochs[e + 1].start
    && (e !in w.released ==> w.epochs[e].expires - skew.ahead <= w.epochs[e + 1].start)
  }

  ghost predicate EpochsOk(w: World, skew: Skew) {
    && (forall e: nat :: e < |w.epochs| ==> EpochOk(w, skew, e))
    && (forall e: nat :: e + 1 < |w.epochs| ==> SuccessionOk(w, skew, e))
  }

  ghost predicate ReleasesOk(w: World) {
    forall e :: e in w.released ==> ReleaseOk(w, e, w.released[e].0, w.released[e].1)
  }

  ghost predicate DecisionOk(w: World, d: Decision) {
    d.epoch < |w.epochs| && d.address == w.epochs[d.epoch].holder
  }

  ghost predicate DecisionsOk(w: World) {
    forall i :: 0 <= i < |w.decisions| ==> DecisionOk(w, w.decisions[i])
  }

  ghost predicate ReplicasOk(w: World) {
    forall id :: id in w.replicas ==> PcOk(w, w.replicas[id].pc)
  }

  ghost predicate Inv(w: World, skew: Skew) {
    KeyOk(w, skew) && EpochsOk(w, skew) && ReleasesOk(w) && DecisionsOk(w) && ReplicasOk(w)
  }

  /** Time passes and epochs are only ever added. */
  ghost predicate Grows(w: World, w': World) {
    w.now <= w'.now && w.epochs <= w'.epochs
  }

  lemma StepGrows(w: World, a: Action, w': World, skew: Skew)
    requires Step(w, a, w', skew)
    ensures Grows(w, w')
  {
  }

  // What is true of a seed, a memory, a release or a decision stays true as epochs are added.

  lemma SeedStaysOk(w: World, w': World, s: Seed)
    requires SeedOk(w, s) && Grows(w, w')
    ensures SeedOk(w', s) && w'.epochs[s.epoch] == w.epochs[s.epoch]
  {
  }

  lemma PcStaysOk(w: World, w': World, pc: Pc)
    requires PcOk(w, pc) && Grows(w, w')
    ensures PcOk(w', pc)
  {
    match pc
    case AwaitingService(seed, _) => if seed.Some? { SeedStaysOk(w, w', seed.value); }
    case Heard(seed) => if seed.Some? { SeedStaysOk(w, w', seed.value); }
    case Releasing(seed, _) => if seed.Some? { SeedStaysOk(w, w', seed.value); }
    case _ =>
  }

  lemma ReleaseStaysOk(w: World, w': World, e: nat, cause: Cause, at: Time)
    requires ReleaseOk(w, e, cause, at) && Grows(w, w')
    ensures ReleaseOk(w', e, cause, at)
  {
  }

  lemma EpochStaysOk(w: World, w': World, skew: Skew, e: nat)
    requires e < |w.epochs| && Grows(w, w') && EpochOk(w, skew, e)
    ensures EpochOk(w', skew, e)
  {
  }

  // One lemma per kind of change to the key and the epochs.

  /** Nothing but time, or a lapsed entry reaped. */
  lemma QuietStepKeepsStore(w: World, w': World, skew: Skew)
    requires KeyOk(w, skew) && EpochsOk(w, skew)
    requires w.now <= w'.now && w'.epochs == w.epochs && w'.released == w.released
    requires w'.seed == w.seed || (w'.seed.None? && w.seed.value.expires <= w'.now + skew.ahead)
    ensures KeyOk(w', skew) && EpochsOk(w', skew)
  {
    forall e: nat | e < |w'.epochs|
      ensures EpochOk(w', skew, e)
    {
      EpochStaysOk(w, w', skew, e);
    }
    forall e: nat | e + 1 < |w'.epochs|
      ensures SuccessionOk(w', skew, e)
    {
      assert SuccessionOk(w, skew, e);
    }
  }

  /** Whoever may claim the key succeeds an epoch that is over or released. */
  lemma ClaimableSucceeds(w: World, skew: Skew)
    requires KeyOk(w, skew) && EpochsOk(w, skew) && Claimable(w, skew) && w.epochs != []
    ensures var e := |w.epochs| - 1;
            w.epochs[e].start <= w.now && (e !in w.released ==> w.epochs[e].expires - skew.ahead <= w.now)
  {
    assert EpochOk(w, skew, |w.epochs| - 1);
  }

  lemma ReleasedBegan(w: World, e: nat)
    requires ReleasesOk(w)
    ensures e in w.released ==> e < |w.epochs|
  {
  }

  lemma ClaimKeepsStore(w: World, w': World, won: Epoch, skew: Skew)
    requires KeyOk(w, skew) && EpochsOk(w, skew) && ReleasesOk(w) && Claimable(w, skew)
    requires w'.now == w.now == won.start
    requires w.now + SEED_TTL - skew.lag <= won.expires <= w.now + SEED_TTL + skew.ahead
    requires w'.released == w.released && w'.epochs == w.epochs + [won]
    requires w'.seed == Some(Seed(won.holder, won.expires, |w.epochs|))
    ensures KeyOk(w', skew) && EpochsOk(w', skew)
  {
    var n := |w.epochs|;
    ReleasedBegan(w, n);
    forall e: nat | e < |w'.epochs|
      ensures EpochOk(w', skew, e)
    {
      if e < n {
        EpochStaysOk(w, w', skew, e);
      }
    }
    forall e: nat | e + 1 < |w'.epochs|
      ensures SuccessionOk(w', skew, e)
    {
      if e + 1 < n {
        assert SuccessionOk(w, skew, e);
      } else {
        ClaimableSucceeds(w, skew);
      }
    }
  }

  lemma EndKeepsStore(w: World, w': World, cause: Cause, skew: Skew)
    requires KeyOk(w, skew) && EpochsOk(w, skew) && w.seed.Some? && w'.seed.None?
    requires w'.now == w.now && w'.epochs == w.epochs && w'.released == w.released[w.seed.value.epoch := (cause, w.now)]
    ensures KeyOk(w', skew) && EpochsOk(w', skew)
  {
    forall e: nat | e < |w'.epochs|
      ensures EpochOk(w', skew, e)
    {
      EpochStaysOk(w, w', skew, e);
    }
    forall e: nat | e + 1 < |w'.epochs|
      ensures SuccessionOk(w', skew, e)
    {
      assert SuccessionOk(w, skew, e);
    }
  }

  lemma StepKeepsStore(w: World, a: Action, w': World, skew: Skew)
    requires Inv(w, skew) && Step(w, a, w', skew)
    ensures KeyOk(w', skew) && EpochsOk(w', skew)
  {
    if !IsOwn(a) {
      QuietStepKeepsStore(w, w', skew);
    } else {
      var r := w.replicas[a.id];
      if Wins(w, a, skew) {
        ClaimKeepsStore(w, w', Epoch(r.ip, w.now, a.anchor + SEED_TTL), skew);
      } else if Ends(w, r, a).Some? {
        EndKeepsStore(w, w', Ends(w, r, a).value, skew);
      } else {
        QuietStepKeepsStore(w, w', skew);
      }
    }
  }

  /** A release or a teardown that ends an epoch has a true cause. */
  lemma CauseIsTrue(w: World, r: Replica, a: Action, skew: Skew)
    requires KeyOk(w, skew) && PcOk(w, r.pc) && Ends(w, r, a).Some?
    ensures w.seed.Some? && ReleaseOk(w, w.seed.value.epoch, Ends(w, r, a).value, w.now)
  {
  }

  lemma StepKeepsReleases(w: World, a: Action, w': World, skew: Skew)
    requires Inv(w, skew) && Step(w, a, w', skew)
    ensures ReleasesOk(w')
  {
    StepGrows(w, a, w', skew);
    forall e | e in w'.released
      ensures ReleaseOk(w', e, w'.released[e].0, w'.released[e].1)
    {
      if e in w.released && w.released[e] == w'.released[e] {
        ReleaseStaysOk(w, w', e, w.released[e].0, w.released[e].1);
      } else {
        CauseIsTrue(w, w.replicas[a.id], a, skew);
        ReleaseStaysOk(w, w', e, Ends(w, w.replicas[a.id], a).value, w.now);
      }
    }
  }

  lemma StepKeepsDecisions(w: World, a: Action, w': World, skew: Skew)
    requires Inv(w, skew) && Step(w, a, w', skew)
    ensures DecisionsOk(w')
  {
    StepGrows(w, a, w', skew);
    forall i | 0 <= i < |w'.decisions|
      ensures DecisionOk(w', w'.decisions[i])
    {
      if i < |w.decisions| {
        assert DecisionOk(w, w.decisions[i]) && w'.decisions[i] == w.decisions[i];
      } else {
        assert PcOk(w, w.replicas[a.id].pc);
      }
    }
  }

  /** What a replica takes away from its own step is true of the state it took it in. */
  lemma OwnPcOk(w: World, r: Replica, a: Action, skew: Skew)
    requires KeyOk(w, skew) && EpochsOk(w, skew) && PcOk(w, r.pc) && Ready(r.pc, a, w.now)
    ensures PcOk(w, NextPc(w, r, a, skew))
  {
    if a.Fetch? && w.seed.Some? {
      assert EpochOk(w, skew, w.seed.value.epoch);
    }
  }

  lemma StepKeepsReplicas(w: World, a: Action, w': World, skew: Skew)
    requires Inv(w, skew) && Step(w, a, w', skew)
    ensures ReplicasOk(w')
  {
    StepGrows(w, a, w', skew);
    forall id | id in w'.replicas
      ensures PcOk(w', w'.replicas[id].pc)
    {
      if IsOwn(a) && a.id == id {
        OwnPcOk(w, w.replicas[id], a, skew);
        PcStaysOk(w, w', w'.replicas[id].pc);
      } else if id in w.replicas {
        PcStaysOk(w, w', w.replicas[id].pc);
      }
    }
  }

  /** The invariant survives every step of every replica. */
  lemma StepKeepsInv(w: World, a: Action, w': World, skew: Skew)
    requires Inv(w, skew) && Step(w, a, w', skew)
    ensures Inv(w', skew)
  {
    StepKeepsStore(w, a, w', skew);
    StepKeepsReleases(w, a, w', skew);
    StepKeepsDecisions(w, a, w', skew);
    StepKeepsReplicas(w, a, w', skew);
  }

  lemma {:induction false} RunKeepsInv(ws: seq<World>, acts: seq<Action>, skew: Skew, n: nat)
    requires IsRun(ws, acts, skew) && n < |ws|
    ensures Inv(ws[n], skew)
  {
    if n > 0 {
      RunKeepsInv(ws, acts, skew, n - 1);
      assert Step(ws[n - 1], acts[n - 1], ws[n - 1 + 1], skew);
      StepKeepsInv(ws[n - 1], acts[n - 1], ws[n], skew);
    }
  }

  // ---- the election theorems ----

  /** All bootstrap decisions resting on one epoch name the same address, and it is the one that won. */
  lemma OneAddressPerEpoch(ws: seq<World>, acts: seq<Action>, skew: Skew, n: nat, d1: nat, d2: nat)
    requires IsRun(ws, acts, skew) && n < |ws|
    requires d1 < |ws[n].decisions| && d2 < |ws[n].decisions|
    requires ws[n].decisions[d1].epoch == ws[n].decisions[d2].epoch
    ensures ws[n].decisions[d1].address == ws[n].decisions[d2].address
  {
    RunKeepsInv(ws, acts, skew, n);
    assert DecisionOk(ws[n], ws[n].decisions[d1]) && DecisionOk(ws[n], ws[n].decisions[d2]);
  }

  lemma {:induction false} EpochsInOrder(w: World, skew: Skew, e1: nat, e2: nat)
    requires EpochsOk(w, skew) && e1 <= e2 < |w.epochs|
    ensures w.epochs[e1].start <= w.epochs[e2].start
  {
    if e1 < e2 {
      EpochsInOrder(w, skew, e1, e2 - 1);
      assert SuccessionOk(w, skew, e2 - 1);
    }
  }

  /** Two bootstraps of different addresses rest on epochs that began a full lease apart, less a fast clock's
      lead and the lag between a lease and its claim, unless a script released the earlier one. */
  lemma BootstrapsAreALeaseApart(ws: seq<World>, acts: seq<Action>, skew: Skew, n: nat, d1: nat, d2: nat)
    requires IsRun(ws, acts, skew) && n < |ws|
    requires d1 < |ws[n].decisions| && d2 < |ws[n].decisions|
    requires ws[n].decisions[d1].address != ws[n].decisions[d2].address
    requires ws[n].decisions[d1].epoch <= ws[n].decisions[d2].epoch
    ensures var w := ws[n];
            var e1, e2 := w.decisions[d1].epoch, w.decisions[d2].epoch;
            && e1 < e2 < |w.epochs|
            && (e1 in w.released
                || w.epochs[e2].start >= w.epochs[e1].start + SEED_TTL - skew.lag - skew.ahead)
  {
    RunKeepsInv(ws, acts, skew, n);
    var w := ws[n];
    assert DecisionOk(w, w.decisions[d1]) && DecisionOk(w, w.decisions[d2]);
    assert SuccessionOk(w, skew, w.decisions[d1].epoch) && EpochOk(w, skew, w.decisions[d1].epoch);
    EpochsInOrder(w, skew, w.decisions[d1].epoch + 1, w.decisions[d2].epoch);
  }

  /** A release that names an address only ever ended an epoch of that address; one issued after five
      minutes of silence from an epoch's holder only ever ended that epoch after it had lapsed by
      itself, two minutes before (less a fast clock's lead). */
  lemma ReleasesNameTheHolder(ws: seq<World>, acts: seq<Action>, skew: Skew, n: nat, e: nat)
    requires IsRun(ws, acts, skew) && n < |ws| && e in ws[n].released
    ensures e < |ws[n].epochs|
    ensures match ws[n].released[e].0
            case OwnStop(ip) => ip == ws[n].epochs[e].holder
            case Abandoned(seed, _) =>
              seed.Some? ==>
                && seed.value.holder == ws[n].epochs[e].holder
                && (seed.value.epoch == e ==>
                      ws[n].released[e].1 >= ws[n].epochs[e].expires - skew.ahead + (SERVE_WAIT - SEED_TTL))
  {
    RunKeepsInv(ws, acts, skew, n);
    assert ReleaseOk(ws[n], e, ws[n].released[e].0, ws[n].released[e].1);
    assert EpochOk(ws[n], skew, e);
  }

  /** The step ends an epoch held by an address other than the one await_seed judged. */
  predicate EndsAnothersEpoch(w: World, w': World, judged: Option<string>) {
    w.seed.Some? && w'.seed.None? && judged != Some(w.seed.value.holder)
  }

  /** An abandonment release can end somebody else's epoch, and does so exactly when the kv_get that
      should have named the seed found nothing: kv_delete then has no value to compare. */
  lemma ReleaseEndsAnothersEpochIff(w: World, id: nat, skew: Skew)
    requires Enabled(w, Release(id, false), skew)
    ensures var seed := w.replicas[id].pc.seed;
            EndsAnothersEpoch(w, Apply(w, Release(id, false), skew), HolderOf(seed)) <==> seed.None? && w.seed.Some?
  {
  }

  /** A release that names an address ends a live epoch exactly when that address holds the key; and it is
      then a later epoch than the one judged, which is always over by then. */
  lemma NamedReleaseEndsALiveEpochIff(ws: seq<World>, acts: seq<Action>, skew: Skew, n: nat, id: nat)
    requires IsRun(ws, acts, skew) && n < |ws| && Enabled(ws[n], Release(id, false), skew)
    requires ws[n].replicas[id].pc.seed.Some? && ws[n].seed.Some? && !Claimable(ws[n], skew)
    ensures var judged, held := ws[n].replicas[id].pc.seed.value, ws[n].seed.value;
            && (Apply(ws[n], Release(id, false), skew).seed.None? <==> held.holder == judged.holder)
            && held.epoch > judged.epoch
  {
    RunKeepsInv(ws, acts, skew, n);
    var pc := ws[n].replicas[id].pc;
    assert PcOk(ws[n], pc);
    assert EpochOk(ws[n], skew, pc.seed.value.epoch);
  }

  // ---- two runs in which a release ends a live epoch ----

  const Perfect: Skew := Skew(0, 0, 0)

  lemma Then(ws: seq<World>, acts: seq<Action>, a: Action) returns (ws': seq<World>, acts': seq<Action>)
    requires IsRun(ws, acts, Perfect) && Enabled(ws[|ws| - 1], a, Perfect)
    ensures IsRun(ws', acts', Perfect)
    ensures ws' == ws + [Apply(ws[|ws| - 1], a, Perfect)] && acts' == acts + [a]
  {
    ws', acts' := ws + [Apply(ws[|ws| - 1], a, Perfect)], acts + [a];
  }

  lemma Begun() returns (ws: seq<World>, acts: seq<Action>)
    ensures IsRun(ws, acts, Perfect) && ws == [World(0, None, map[], [], [], map[])] && acts == []
  {
    ws, acts := [World(0, None, map[], [], [], map[])], [];
  }

  /** A replica comes up, finds no peers, and tries for the lease. */
  lemma TriesForTheLease(ws: seq<World>, acts: seq<Action>, id: nat, ip: string)
    returns (ws': seq<World>, acts': seq<Action>)
    requires IsRun(ws, acts, Perfect) && id !in ws[|ws| - 1].replicas
    ensures IsRun(ws', acts', Perfect)
    ensures var w := ws[|ws| - 1];
            ws'[|ws'| - 1] ==
            Apply(w.(replicas := w.replicas[id := Replica(ip, Claiming)]), Claim(id, false, w.now), Perfect)
  {
    ws', acts' := Then(ws, acts, Start(id, ip));
    ws', acts' := Then(ws', acts', Branch(id, false));
    assert ws'[|ws'| - 1].replicas == ws[|ws| - 1].replicas[id := Replica(ip, Claiming)];
    ws', acts' := Then(ws', acts', Claim(id, false, ws[|ws| - 1].now));
  }

  /** "a" holds the lease from instant 0 and "b" has seen that it is held. */
  lemma TwoReplicas() returns (ws: seq<World>, acts: seq<Action>)
    ensures IsRun(ws, acts, Perfect)
    ensures ws[|ws| - 1] == World(0, Some(Seed("a", SEED_TTL, 0)),
                                  map[0 := Replica("a", Bootstrapping), 1 := Replica("b", Fetching)],
                                  [Epoch("a", 0, SEED_TTL)], [Decision("a", 0)], map[])
  {
    ws, acts := Begun();
    ws, acts := TriesForTheLease(ws, acts, 0, "a");
    ws, acts := TriesForTheLease(ws, acts, 1, "b");
    ws, acts := Then(ws, acts, Poll(1, false));
    assert ws[|ws| - 1].replicas == map[0 := Replica("a", Bootstrapping), 1 := Replica("b", Fetching)];
  }

  /** The last step of a run is the release, and this is what it ended. */
  ghost predicate LastReleaseEnded(ws: seq<World>, acts: seq<Action>, id: nat, judged: Fetched, live: Seed) {
    && IsRun(ws, acts, Perfect) && |acts| >= 1 && acts[|acts| - 1] == Release(id, false)
    && var w := ws[|acts| - 1];
    && Visible(w, Perfect) && w.seed == Some(live) && id in w.replicas && w.replicas[id].pc.Releasing?
    && w.replicas[id].pc.seed == judged && ws[|acts|].seed.None?
  }

  /** "a" releases its lease before "b" asks who holds it; five minutes later "c" has taken it. */
  lemma NobodyWasNamed() returns (ws: seq<World>, acts: seq<Action>)
    ensures IsRun(ws, acts, Perfect)
    ensures var w := ws[|ws| - 1];
            && w.now == SERVE_WAIT && w.seed == Some(Seed("c", SERVE_WAIT + SEED_TTL, 1))
            && At(w, 1, AwaitingService(None, 0))
  {
    ws, acts := TwoReplicas();
    ws, acts := Then(ws, acts, PreStop(0, false));
    ws, acts := Then(ws, acts, Fetch(1, false));
    ws, acts := Then(ws, acts, Tick(SERVE_WAIT));
    ws, acts := TriesForTheLease(ws, acts, 2, "c");
  }

  /** The lease goes between the two kv_gets of await_seed; five minutes later the release, naming no
      one, ends the live epoch of a third replica. */
  lemma UnnamedReleaseEndsALiveEpoch()
    ensures exists ws: seq<World>, acts: seq<Action>, live: Seed ::
              LastReleaseEnded(ws, acts, 1, None, live) && live.holder == "c"
  {
    var ws, acts := NobodyWasNamed();
    var live := Seed("c", SERVE_WAIT + SEED_TTL, 1);
    ws, acts := Then(ws, acts, Silent(1, true));
    ws, acts := Then(ws, acts, Release(1, false));
    assert LastReleaseEnded(ws, acts, 1, None, live);
  }

  /** "b" waits for the seed of the first epoch, whose lease lapses; "a" resolves again. */
  lemma FirstLeaseLapsed() returns (ws: seq<World>, acts: seq<Action>)
    ensures IsRun(ws, acts, Perfect)
    ensures var w := ws[|ws| - 1];
            && w.now == SEED_TTL && w.seed == Some(Seed("a", SEED_TTL, 0)) && |w.epochs| == 1
            && At(w, 1, AwaitingService(Some(Seed("a", SEED_TTL, 0)), 0))
            && 0 in w.replicas && w.replicas[0] == Replica("a", Resolving)
  {
    ws, acts := TwoReplicas();
    ws, acts := Then(ws, acts, Fetch(1, false));
    ws, acts := Then(ws, acts, Tick(SEED_TTL));
    ws, acts := Then(ws, acts, Retry(0));
  }

  /** "a" takes the lease again, while "b" still waits for the seed of the first epoch. */
  lemma SameHolderAgain() returns (ws: seq<World>, acts: seq<Action>)
    ensures IsRun(ws, acts, Perfect)
    ensures var w := ws[|ws| - 1];
            && w.now == SEED_TTL && w.seed == Some(Seed("a", SEED_TTL + SEED_TTL, 1))
            && At(w, 1, AwaitingService(Some(Seed("a", SEED_TTL, 0)), 0))
  {
    ws, acts := FirstLeaseLapsed();
    ws, acts := Then(ws, acts, Branch(0, false));
    ws, acts := Then(ws, acts, Claim(0, false, SEED_TTL));
  }

  /** The judged holder takes the lease again meanwhile; the release, comparing addresses only, ends
      its new, live epoch. */
  lemma ReleaseEndsALaterEpochOfTheSameHolder()
    ensures exists ws: seq<World>, acts: seq<Action>, judged: Seed, live: Seed ::
              && LastReleaseEnded(ws, acts, 1, Some(judged), live)
              && judged.holder == live.holder && judged.epoch < live.epoch
  {
    var ws, acts := SameHolderAgain();
    var judged, live := Seed("a", SEED_TTL, 0), Seed("a", SEED_TTL + SEED_TTL, 1);
    ws, acts := Then(ws, acts, Tick(SERVE_WAIT - SEED_TTL));
    ws, acts := Then(ws, acts, Silent(1, true));
    ws, acts := Then(ws, acts, Release(1, false));
    assert LastReleaseEnded(ws, acts, 1, Some(judged), live);
  }
}
