/**
 The DynamoDB store (internal/provider/aws/kv.go): one conditional request per operation, expiry in
 whole seconds of the clients' clocks.
 */
module DynamoKv {
  import opened Wrappers
  import opened Lease
  import KeyPrefix

  /** `expiresAt` is in Unix seconds; absent means permanent. */
  datatype Item = Item(val: string, owner: string, expiresAt: Option<int>)

  function NowUnix(clock: Time): int {
    clock / SECOND
  }

  function CellOf(items: map<string, Item>, pk: string): Cell {
    if pk !in items then None
    else
      var i := items[pk];
      Some(Entry(i.val, i.owner, if i.expiresAt.None? then None else Some(i.expiresAt.value * SECOND)))
  }

  ghost predicate SameElsewhere(m: map<string, Item>, m': map<string, Item>, pk: string) {
    forall k :: k != pk ==> CellOf(m, k) == CellOf(m', k)
  }

  /** attribute_not_exists(pk) OR expires_at < :now */
  predicate Claimable(items: map<string, Item>, pk: string, now: int) {
    pk !in items || (items[pk].expiresAt.Some? && items[pk].expiresAt.value < now)
  }

  /** attribute_not_exists(expires_at) OR expires_at > :now */
  predicate Unexpired(i: Item, now: int) {
    i.expiresAt.None? || i.expiresAt.value > now
  }

  /** The one second in which an entry is neither live nor claimable. */
  predicate InLimbo(c: Cell, clock: Time) {
    c.Some? && c.value.expires == Some(NowUnix(clock) * SECOND)
  }

  /** A claimable key is never live; the converse holds except in that one second. */
  lemma ClaimableIffNotLive(items: map<string, Item>, pk: string, clock: Time)
    ensures Claimable(items, pk, NowUnix(clock))
            <==> !LiveCell(CellOf(items, pk), NowUnix(clock) * SECOND) && !InLimbo(CellOf(items, pk), clock)
  {
    if pk in items && items[pk].expiresAt.Some? {
      var x, n := items[pk].expiresAt.value, NowUnix(clock);
      assert x * SECOND > n * SECOND <==> x > n;
    }
  }

  /** One request, served: the reference in whole seconds, but for a claim in that one second.  The two
      clocks are those read for a new item's expiry and for `:now`, when the request is built. */
  function Served(c: Cell, op: Op, self: string, itemClock: Time, nowClock: Time): (Cell, Answer) {
    if op.PutIfAbsent? && InLimbo(c, nowClock) then (c, No)
    else Reference(WholeSeconds, c, op, self, NowUnix(nowClock) * SECOND, NowUnix(itemClock) * SECOND)
  }

  /** The service's own TTL deletion: late, and never before expires_at has passed by the service's clock. */
  function Reaped(c: Cell, clock: Time): Cell {
    if c.Some? && c.value.expires.Some? && c.value.expires.value < NowUnix(clock) * SECOND then None else c
  }

  class Table {
    var items: map<string, Item>

    constructor ()
      ensures items == map[]
    {
      items := map[];
    }

    /** The service's TTL deletion of one item.  It changes nobody's view of what is live. */
    method ReapExpired(pk: string, clock: Time)
      modifies this
      ensures CellOf(items, pk) == Reaped(CellOf(old(items), pk), clock)
      ensures SameElsewhere(old(items), items, pk)
      ensures forall k, later: Time :: later >= clock ==>
                LiveCell(CellOf(items, k), later) == LiveCell(CellOf(old(items), k), later)
    {
      if pk in items && items[pk].expiresAt.Some? && items[pk].expiresAt.value < NowUnix(clock) {
        items := items - {pk};
      }
    }
  }

  /** `clock` is read for a new item's expiry, `clock'` for `:now`; both when the request is built. */
  class DynamoKV {
    const table: Table
    const prefix: string
    const owner: string

    constructor (table: Table, prefix: string, owner: string)
      ensures this.table == table && this.prefix == prefix && this.owner == owner
    {
      this.table, this.prefix, this.owner := table, prefix, owner;
    }

    function Key(k: string): (pk: string)
      ensures pk == KeyPrefix.Full(prefix, k)
    {
      if prefix == "" then k else prefix + "/" + k
    }

    /** No other key of this store has changed. */
    ghost predicate OthersKept(m: map<string, Item>, m': map<string, Item>, key: string) {
      forall k :: k != key ==> CellOf(m, Key(k)) == CellOf(m', Key(k))
    }

    /** Distinct keys are distinct items. */
    lemma DistinctKeysDistinctItems(m: map<string, Item>, m': map<string, Item>, key: string)
      requires SameElsewhere(m, m', Key(key))
      ensures OthersKept(m, m', key)
    {
      forall k | k != key
        ensures CellOf(m, Key(k)) == CellOf(m', Key(k))
      {
        KeyPrefix.SameKeyIff(prefix, k, key);
      }
    }

    function NewItem(val: string, ttl: int, clock: Time): Item {
      Item(val, owner, if ttl > 0 then Some(NowUnix(clock) + ttl / SECOND) else None)
    }

    method PutIfAbsent(key: string, val: string, ttl: int, clock: Time, clock': Time) returns (ok: bool)
      modifies table
      ensures (CellOf(table.items, Key(key)), if ok then Yes else No) ==
              Served(CellOf(old(table.items), Key(key)), Lease.PutIfAbsent(val, ttl), owner, clock, clock')
      ensures OthersKept(old(table.items), table.items, key)
    {
      ClaimableIffNotLive(table.items, Key(key), clock');
      ok := Claimable(table.items, Key(key), NowUnix(clock'));
      if ok {
        DistinctKeysDistinctItems(table.items, table.items[Key(key) := NewItem(val, ttl, clock)], key);
        table.items := table.items[Key(key) := NewItem(val, ttl, clock)];
      }
    }

    method CompareAndSwap(key: string, oldV: string, newV: string, ttl: int, clock: Time, clock': Time)
      returns (ok: bool)
      modifies table
      ensures (CellOf(table.items, Key(key)), if ok then Yes else No) ==
              Served(CellOf(old(table.items), Key(key)), Lease.CompareAndSwap(oldV, newV, ttl), owner, clock, clock')
      ensures OthersKept(old(table.items), table.items, key)
    {
      ok := Key(key) in table.items && table.items[Key(key)].val == oldV
            && Unexpired(table.items[Key(key)], NowUnix(clock'));
      if ok {
        DistinctKeysDistinctItems(table.items, table.items[Key(key) := NewItem(newV, ttl, clock)], key);
        table.items := table.items[Key(key) := NewItem(newV, ttl, clock)];
      }
    }

    method Get(key: string, clock: Time) returns (v: Option<string>)
      ensures (CellOf(table.items, Key(key)), if v.Some? then Found(v.value) else NotFound) ==
              Served(CellOf(table.items, Key(key)), Lease.Get, owner, clock, clock)
    {
      if Key(key) !in table.items {
        return None;
      }
      var i := table.items[Key(key)];
      if i.expiresAt.Some? && i.expiresAt.value <= NowUnix(clock) {
        return None;
      }
      return Some(i.val);
    }

    method Delete(key: string, ifValue: Option<string>) returns (ok: bool)
      modifies table
      ensures (CellOf(table.items, Key(key)), if ok then Yes else No) ==
              Served(CellOf(old(table.items), Key(key)), Lease.Delete(ifValue), owner, 0, 0)
      ensures OthersKept(old(table.items), table.items, key)
    {
      if ifValue.Some? && !(Key(key) in table.items && table.items[Key(key)].val == ifValue.value) {
        return false;
      }
      DistinctKeysDistinctItems(table.items, table.items - {Key(key)}, key);
      table.items := table.items - {Key(key)};
      return true;
    }

    method Renew(key: string, ttl: int, clock: Time, clock': Time) returns (answer: Answer)
      modifies table
      ensures (CellOf(table.items, Key(key)), answer) ==
              Served(CellOf(old(table.items), Key(key)), Lease.Renew(ttl), owner, clock, clock')
      ensures OthersKept(old(table.items), table.items, key)
    {
      if ttl <= 0 {
        return Failed;
      }
      if Key(key) in table.items {
        var i := table.items[Key(key)];
        if i.expiresAt.Some? && i.expiresAt.value > NowUnix(clock') && i.owner == owner {
          i := i.(expiresAt := Some(NowUnix(clock) + ttl / SECOND));
          DistinctKeysDistinctItems(table.items, table.items[Key(key) := i], key);
          table.items := table.items[Key(key) := i];
          return Yes;
        }
      }
      return No;
    }
  }
  /** Two stores of different prefixes on one table use one item exactly when one prefix is empty or a path
      above the other and the keys make up the difference. */
  lemma SharedItemIff(s1: DynamoKV, k1: string, s2: DynamoKV, k2: string)
    requires s1.prefix != s2.prefix
    ensures s1.Key(k1) == s2.Key(k2) <==>
            KeyPrefix.Above(s1.prefix, k1, s2.prefix, k2) || KeyPrefix.Above(s2.prefix, k2, s1.prefix, k1)
  {
    KeyPrefix.SharedIff(s1.prefix, k1, s2.prefix, k2);
  }
}
