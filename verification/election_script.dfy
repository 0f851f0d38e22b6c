/**
 resolve_pd, await_seed and pd_pre_stop as the script writes them: lease operations in sequence, with
 any number of steps by other replicas before each.  Each is proved to perform exactly the steps of
 one replica of the state machine, so the election theorems are theorems about this script.
 */
module ElectionScript {
  import opened Wrappers
  import opened Lease
  import opened Election

  /** What resolve_pd returns, besides the argv common to all branches. */
  datatype Role =
    | Restart                          // (A)
    | JoinPeers(peers: seq<string>)    // (B)
    | Bootstrap                        // (C), or (D) with our own lease
    | Follow(seed: Option<string>)     // (D)
    | Raise                            // the script fails, and spawn() may retry

  /** What await_seed comes to: the seed that serves, or one of its two failures. */
  datatype AwaitedSeed = Serving(seed: Option<string>) | NotElected | NeverServed(seed: Option<string>)

  /** seed_looks_abandoned, of so many replicas: a discovery answer large enough to be believed, and the seed
      not in it. */
  predicate LooksAbandoned(replicas: int, peers: seq<string>, seed: Option<string>) {
    2 * |peers| > replicas && (seed.Some? ==> seed.value !in peers)
  }

  /** Replica `me` has heard from `seed`: what it read of the key, when that was the holder of an epoch begun
      by then. */
  ghost predicate HeardFrom(w: World, me: nat, seed: Option<string>) {
    && me in w.replicas && w.replicas[me].pc.Heard? && HolderOf(w.replicas[me].pc.seed) == seed
    && (seed.Some? ==>
          exists e: nat :: e < |w.epochs| && w.epochs[e].holder == seed.value && w.epochs[e].start <= w.now)
  }

  class Cluster {
    const skew: Skew
    const pdReplicas: int
    var w: World
    ghost var ws: seq<World>
    ghost var acts: seq<Action>

    ghost predicate Valid()
      reads this
    {
      IsRun(ws, acts, skew) && ws[|ws| - 1] == w
    }

    /** Replica `me` has address `ip` and stands at `pc`; the run has only grown since `from`. */
    ghost predicate Stands(me: nat, ip: string, pc: Pc, from: seq<World>)
      reads this
    {
      Valid() && me in w.replicas && w.replicas[me] == Replica(ip, pc) && from <= ws
    }

    constructor (skew: Skew, pdReplicas: int)
      ensures Valid() && this.skew == skew && this.pdReplicas == pdReplicas
    {
      this.skew, this.pdReplicas := skew, pdReplicas;
      w := World(0, None, map[], [], [], map[]);
      ws, acts := [World(0, None, map[], [], [], map[])], [];
    }

    predicate Mine(a: Action, me: nat) {
      !a.Tick? && !a.Reap? && a.id == me
    }

    /** The last step was one of `me`. */
    ghost predicate LastIs(me: nat)
      reads this
    {
      acts != [] && Mine(acts[|acts| - 1], me)
    }

    method Take(a: Action)
      requires Valid() && Enabled(w, a, skew)
      modifies this
      ensures Valid() && w == Apply(old(w), a, skew) && ws == old(ws) + [w] && acts == old(acts) + [a]
    {
      w := Apply(w, a, skew);
      ws, acts := ws + [w], acts + [a];
    }

    /** Any number of steps by anybody else. */
    method Interfere(me: nat)
      requires Valid() && me in w.replicas
      modifies this
      ensures Valid() && me in w.replicas && w.replicas[me] == old(w).replicas[me]
      ensures old(ws) <= ws && old(w).now <= w.now
    {
      var n: nat := *;
      while n > 0
        invariant Valid() && me in w.replicas && w.replicas[me] == old(w).replicas[me]
        invariant old(ws) <= ws && old(w).now <= w.now
      {
        var a: Action := *;
        if Enabled(w, a, skew) && !Mine(a, me) {
          StepGrows(w, a, Apply(w, a, skew), skew);
          Take(a);
        }
        n := n - 1;
      }
    }

    /** `refuse` is a store's answer without a reason. */
    method KvPutIfAbsent(me: nat, ip: string, refuse: bool) returns (ok: bool)
      requires Stands(me, ip, Claiming, ws)
      modifies this
      ensures ok ==> Stands(me, ip, Bootstrapping, old(ws)) && w.decisions != []
                     && w.epochs != [] && w.decisions[|w.decisions| - 1] == Decision(ip, |w.epochs| - 1)
      ensures !ok ==> Stands(me, ip, AwaitingElection(w.now + ELECT_WAIT), old(ws))
      ensures |ws| >= 2 && (ok <==> !refuse && Claimable(ws[|ws| - 2], skew))
    {
      Interfere(me);
      ok := !refuse && Claimable(w, skew);
      var earlier: nat :| earlier <= skew.ahead + skew.lag;
      Take(Claim(me, refuse, w.now + skew.ahead - earlier));
    }

    /** poll(lambda: kv_get(SEED_KEY) != None, "180s", interval = "2s") */
    method PollForSeed(me: nat, ip: string) returns (found: bool)
      requires exists t :: Stands(me, ip, AwaitingElection(t), ws)
      modifies this
      ensures Stands(me, ip, if found then Fetching else Raised, old(ws))
      ensures LastIs(me) && acts[|acts| - 1].Poll?
      ensures !found ==> w.now >= old(w).replicas[me].pc.deadline
    {
      var deadline := w.replicas[me].pc.deadline;
      while true
        invariant Stands(me, ip, AwaitingElection(deadline), old(ws))
        decreases deadline - w.now
      {
        Interfere(me);
        var blind: bool := *;
        found := !blind && Visible(w, skew);
        var late := w.now >= deadline;
        Take(Poll(me, blind));
        if found || late {
          return;
        }
        Take(Tick(if deadline - w.now < 2 * SECOND then deadline - w.now else 2 * SECOND));
      }
    }

    method KvGetSeed(me: nat, ip: string, blind: bool) returns (seed: Option<string>)
      requires Stands(me, ip, Fetching, ws)
      modifies this
      ensures me in w.replicas && w.replicas[me].pc.AwaitingService?
      ensures Stands(me, ip, w.replicas[me].pc, old(ws)) && HolderOf(w.replicas[me].pc.seed) == seed
      ensures |ws| >= 2
      ensures seed == if !blind && Visible(ws[|ws| - 2], skew) then HolderOf(ws[|ws| - 2].seed) else None
    {
      Interfere(me);
      seed := if !blind && Visible(w, skew) then Some(w.seed.value.holder) else None;
      Take(Fetch(me, blind));
    }

    /** poll(http_ok(client_url(seed) + "/pd/api/v1/members", "2s"), "300s", interval = "2s") */
    method PollForService(me: nat, ip: string) returns (served: bool)
      requires me in w.replicas && w.replicas[me].pc.AwaitingService? && Stands(me, ip, w.replicas[me].pc, ws)
      modifies this
      ensures var pc := old(w).replicas[me].pc;
              && Stands(me, ip, if served then Heard(pc.seed) else pc, old(ws))
              && (!served ==> w.now >= pc.since + SERVE_WAIT)
    {
      var pc := w.replicas[me].pc;
      Interfere(me);
      Since(me);
      var deadline := w.now + SERVE_WAIT;   // the wait starts after the get
      while true
        invariant Stands(me, ip, pc, old(ws)) && deadline >= pc.since + SERVE_WAIT
        decreases deadline - w.now
      {
        Interfere(me);
        served := *;
        if served {
          Take(Served(me));
          return;
        }
        if w.now >= deadline {
          return;
        }
        Take(Tick(if deadline - w.now < 2 * SECOND then deadline - w.now else 2 * SECOND));
      }
    }

    lemma Since(me: nat)
      requires Valid() && me in w.replicas && w.replicas[me].pc.AwaitingService?
      ensures w.replicas[me].pc.since <= w.now
    {
      RunKeepsInv(ws, acts, skew, |ws| - 1);
      assert PcOk(w, w.replicas[me].pc);
    }

    /** kv_delete(SEED_KEY, if_value = seed): a value of None compares nothing. */
    method KvDeleteSeed(me: nat, ip: string, ifValue: Option<string>, refuse: bool)
      requires me in w.replicas && w.replicas[me].pc.Releasing? && Stands(me, ip, w.replicas[me].pc, ws)
      requires HolderOf(w.replicas[me].pc.seed) == ifValue
      modifies this
      ensures Stands(me, ip, Raised, old(ws)) && acts != [] && acts[|acts| - 1] == Release(me, refuse)
      ensures !refuse ==> !Deletes(w, ifValue)
    {
      Interfere(me);
      Take(Release(me, refuse));
    }

    /** Five minutes of silence from `seed`: it is released if it looks abandoned, and only then. */
    method GiveUp(me: nat, ip: string, seed: Option<string>, peers: seq<string>)
      requires me in w.replicas && w.replicas[me].pc.AwaitingService? && Stands(me, ip, w.replicas[me].pc, ws)
      requires HolderOf(w.replicas[me].pc.seed) == seed && w.now >= w.replicas[me].pc.since + SERVE_WAIT
      modifies this
      ensures Stands(me, ip, Raised, old(ws)) && LastIs(me)
      ensures if LooksAbandoned(pdReplicas, peers, seed) then acts[|acts| - 1].Release?
              else acts[|acts| - 1] == Silent(me, false)
    {
      var abandoned := LooksAbandoned(pdReplicas, peers, seed);
      Take(Silent(me, abandoned));
      if abandoned {
        var refuse: bool := *;
        KvDeleteSeed(me, ip, seed, refuse);
      }
    }

    /** What await_seed leaves behind: the replica has heard from the seed, or the script has failed, at the
        poll for a seed or at giving up on one. */
    ghost predicate Awaited(me: nat, ip: string, r: AwaitedSeed, peers: seq<string>, from: seq<World>)
      reads this
    {
      match r
      case Serving(seed) =>
        && me in w.replicas && w.replicas[me].pc.Heard? && Stands(me, ip, w.replicas[me].pc, from)
        && HolderOf(w.replicas[me].pc.seed) == seed
      case NotElected => Stands(me, ip, Raised, from) && LastIs(me) && acts[|acts| - 1].Poll?
      case NeverServed(seed) =>
        && Stands(me, ip, Raised, from) && LastIs(me)
        && if LooksAbandoned(pdReplicas, peers, seed) then acts[|acts| - 1].Release?
           else acts[|acts| - 1] == Silent(me, false)
    }

    /** A seed has been seen: read whose it is, and wait for that replica to serve. */
    method AwaitService(me: nat, ip: string, peers: seq<string>) returns (r: AwaitedSeed)
      requires Stands(me, ip, Fetching, ws)
      modifies this
      ensures Awaited(me, ip, r, peers, old(ws)) && !r.NotElected?
    {
      var blind: bool := *;
      var s := KvGetSeed(me, ip, blind);
      var served := PollForService(me, ip);
      if served {
        return Serving(s);
      }
      GiveUp(me, ip, s, peers);
      return NeverServed(s);
    }

    /** Block until the seed lease is taken and its holder is serving; `peers` is what discovery answers when
        it never does. */
    method AwaitSeed(me: nat, ip: string, peers: seq<string>) returns (r: AwaitedSeed)
      requires exists t :: Stands(me, ip, AwaitingElection(t), ws)
      modifies this
      ensures Awaited(me, ip, r, peers, old(ws))
    {
      var found := PollForSeed(me, ip);
      if !found {
        return NotElected;
      }
      r := AwaitService(me, ip, peers);
    }

    /** The end of branch (D): our own lease, or the seed we have heard from. */
    method BootstrapOrFollow(me: nat, ip: string, seed: Option<string>) returns (role: Role)
      requires me in w.replicas && w.replicas[me].pc.Heard? && Stands(me, ip, w.replicas[me].pc, ws)
      requires HolderOf(w.replicas[me].pc.seed) == seed
      modifies this
      ensures role.Bootstrap? ==> seed == Some(ip) && Bootstraps(me, ip, old(ws))
      ensures !role.Bootstrap? ==> role == Follow(seed) && seed != Some(ip) && Stands(me, ip, Joining, old(ws))
    {
      Take(Conclude(me));
      if seed == Some(ip) {
        LastDecision();
        return Bootstrap;   // the lease is still ours
      }
      return Follow(seed);
    }

    /** The last decision is ours, and true of its epoch. */
    ghost predicate Bootstraps(me: nat, ip: string, from: seq<World>)
      reads this
    {
      && Stands(me, ip, Bootstrapping, from) && w.decisions != []
      && w.decisions[|w.decisions| - 1].address == ip && DecisionOk(w, w.decisions[|w.decisions| - 1])
    }

    /** Branches (C) and (D).  A follower follows the seed it has heard from. */
    method ColdStart(me: nat, ip: string, peers: seq<string>) returns (role: Role)
      requires Stands(me, ip, Claiming, ws)
      modifies this
      ensures role.Bootstrap? || role.Follow? || role.Raise?
      ensures role.Bootstrap? ==> Bootstraps(me, ip, old(ws))
      ensures role.Follow? ==> Stands(me, ip, Joining, old(ws)) && role.seed != Some(ip)
      ensures role.Follow? ==> exists i :: |old(ws)| <= i < |ws| && HeardFrom(ws[i], me, role.seed)
      ensures role.Raise? ==> Stands(me, ip, Raised, old(ws))
    {
      var refuse: bool := *;
      var won := KvPutIfAbsent(me, ip, refuse);
      if won {
        LastDecision();
        return Bootstrap;
      }
      var seed := AwaitSeed(me, ip, peers);
      if !seed.Serving? {
        return Raise;
      }
      HeardNow(me, seed.seed);
      ghost var i := |ws| - 1;
      role := BootstrapOrFollow(me, ip, seed.seed);
      assert HeardFrom(ws[i], me, seed.seed);
    }

    /** `hasMember`: the data directory holds a member; `live`: the peers that answer; `peers`: what discovery
        says when a seed is silent. */
    method ResolvePd(me: nat, ip: string, hasMember: bool, live: seq<string>, peers: seq<string>) returns (role: Role)
      requires Stands(me, ip, Resolving, ws)
      modifies this
      ensures role.Restart? <==> hasMember
      ensures if !hasMember && live != [] then role == JoinPeers(live) else !role.JoinPeers?
      ensures role.Bootstrap? ==> Bootstraps(me, ip, old(ws))
      ensures role.Restart? || role.JoinPeers? || role.Follow? ==> Stands(me, ip, Joining, old(ws))
      ensures role.Follow? ==> role.seed != Some(ip)
      ensures role.Follow? ==> exists i :: |old(ws)| <= i < |ws| && HeardFrom(ws[i], me, role.seed)
      ensures role.Raise? ==> Stands(me, ip, Raised, old(ws))
    {
      if hasMember {
        Take(Branch(me, true));
        return Restart;
      }
      if live != [] {
        Take(Branch(me, true));
        return JoinPeers(live);
      }
      Take(Branch(me, false));
      role := ColdStart(me, ip, peers);
    }

    lemma HeardNow(me: nat, seed: Option<string>)
      requires Valid() && me in w.replicas && w.replicas[me].pc.Heard? && HolderOf(w.replicas[me].pc.seed) == seed
      ensures HeardFrom(w, me, seed)
    {
      RunKeepsInv(ws, acts, skew, |ws| - 1);
      assert PcOk(w, w.replicas[me].pc);
      if seed.Some? {
        var e := w.replicas[me].pc.seed.value.epoch;
        assert e < |w.epochs| && w.epochs[e].holder == seed.value && w.epochs[e].start <= w.now;
      }
    }

    lemma LastDecision()
      requires Valid() && w.decisions != []
      ensures DecisionOk(w, w.decisions[|w.decisions| - 1])
    {
      RunKeepsInv(ws, acts, skew, |ws| - 1);
    }

    /** Teardown: release our own lease first. */
    method PdPreStop(me: nat, ip: string, refuse: bool)
      requires me in w.replicas && (w.replicas[me].pc.Bootstrapping? || w.replicas[me].pc.Joining?)
      requires Stands(me, ip, w.replicas[me].pc, ws)
      modifies this
      ensures Stands(me, ip, Stopped, old(ws))
      ensures !refuse ==> !Deletes(w, Some(ip))
    {
      Interfere(me);
      Take(PreStop(me, refuse));
    }
  }
}
