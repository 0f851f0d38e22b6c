/** The in-memory store (internal/provider/memkv/memkv.go): the reference, one map under one lock. */
module MemKv {
  import opened Wrappers
  import opened Lease

  function Lookup(m: map<string, Entry>, key: string): Cell {
    if key in m then Some(m[key]) else None
  }

  /** The two maps agree on every other key. */
  ghost predicate SameElsewhere(m: map<string, Entry>, m': map<string, Entry>, key: string) {
    forall k :: k != key ==> Lookup(m, k) == Lookup(m', k)
  }

  /** The backing map, shared by every view made with WithOwner. */
  class Shared {
    var data: map<string, Entry>

    constructor ()
      ensures data == map[]
    {
      data := map[];
    }
  }

  class KV {
    const shared: Shared
    const owner: string

    constructor (shared: Shared, owner: string)
      ensures this.shared == shared && this.owner == owner
    {
      this.shared, this.owner := shared, owner;
    }

    /** A view of the same store under another owner. */
    method WithOwner(owner: string) returns (kv: KV)
      ensures fresh(kv) && kv.shared == shared && kv.owner == owner
    {
      kv := new KV(shared, owner);
    }

    /** The entry, if it exists and its lease has not expired. */
    function LiveEntry(key: string, now: Time): (e: Option<Entry>)
      reads shared
    {
      if key !in shared.data then None
      else
        var e := shared.data[key];
        if e.expires.Some? && !(e.expires.value > now) then None else Some(e)
    }

    function ExpiryAt(now: Time, ttl: int): Option<Time> {
      if ttl <= 0 then None else Some(now + ttl)
    }

    method PutIfAbsent(key: string, val: string, ttl: int, now: Time) returns (ok: bool)
      modifies shared
      ensures (Lookup(shared.data, key), if ok then Yes else No)
              == Reference(Exact, Lookup(old(shared.data), key), Lease.PutIfAbsent(val, ttl), owner, now, now)
      ensures SameElsewhere(old(shared.data), shared.data, key)
    {
      if LiveEntry(key, now).Some? {
        return false;
      }
      shared.data := shared.data[key := Entry(val, owner, ExpiryAt(now, ttl))];
      return true;
    }

    method CompareAndSwap(key: string, oldV: string, newV: string, ttl: int, now: Time) returns (ok: bool)
      modifies shared
      ensures (Lookup(shared.data, key), if ok then Yes else No)
              == Reference(Exact, Lookup(old(shared.data), key), Lease.CompareAndSwap(oldV, newV, ttl), owner, now, now)
      ensures SameElsewhere(old(shared.data), shared.data, key)
    {
      var e := LiveEntry(key, now);
      if e.None? || e.value.val != oldV {
        return false;
      }
      shared.data := shared.data[key := Entry(newV, owner, ExpiryAt(now, ttl))];
      return true;
    }

    method Get(key: string, now: Time) returns (v: Option<string>)
      ensures (Lookup(shared.data, key), if v.Some? then Found(v.value) else NotFound)
              == Reference(Exact, Lookup(shared.data, key), Lease.Get, owner, now, now)
    {
      var e := LiveEntry(key, now);
      v := if e.None? then None else Some(e.value.val);
    }

    method Delete(key: string, ifValue: Option<string>, now: Time) returns (ok: bool)
      modifies shared
      ensures (Lookup(shared.data, key), if ok then Yes else No)
              == Reference(Exact, Lookup(old(shared.data), key), Lease.Delete(ifValue), owner, now, now)
      ensures SameElsewhere(old(shared.data), shared.data, key)
    {
      if ifValue.Some? {
        if key !in shared.data || shared.data[key].val != ifValue.value {
          return false;
        }
      }
      shared.data := shared.data - {key};
      return true;
    }

    method Renew(key: string, ttl: int, now: Time) returns (answer: Answer)
      modifies shared
      ensures (Lookup(shared.data, key), answer)
              == Reference(Exact, Lookup(old(shared.data), key), Lease.Renew(ttl), owner, now, now)
      ensures SameElsewhere(old(shared.data), shared.data, key)
    {
      if ttl <= 0 {
        return Failed;
      }
      var e := LiveEntry(key, now);
      if e.None? || e.value.expires.None? || e.value.owner != owner {
        return No;
      }
      shared.data := shared.data[key := e.value.(expires := ExpiryAt(now, ttl))];
      return Yes;
    }
  }
}
