/**
 The Firestore store (internal/provider/gcp/firestore.go): one transaction per operation, expiry
 anchored on the server's update time, liveness judged by the client's clock.
 */
module FirestoreKv {
  import opened Wrappers
  import opened Lease
  import opened DocId
  import KeyPrefix

  /** Document fields, and the update time a snapshot carries.  `ttlMs` absent reads as zero. */
  datatype Doc = Doc(val: string, owner: string, ttlMs: int, updateTime: Time)

  /** `fsEntry`, as `decode` makes it. */
  function Decode(d: Doc): Entry {
    Entry(d.val, d.owner, if d.ttlMs > 0 then Some(d.updateTime + d.ttlMs * MILLISECOND) else None)
  }

  /** The collection, keyed by document id. */
  class Collection {
    var docs: map<string, Doc>

    constructor ()
      ensures docs == map[]
    {
      docs := map[];
    }
  }

  function CellOf(docs: map<string, Doc>, id: string): Cell {
    if id in docs then Some(Decode(docs[id])) else None
  }

  /** Each method is one transaction: `clock` is the client's reading inside it, `commit` the update
      time the server gives its write. */
  class FirestoreKV {
    const collection: Collection
    const prefix: Key
    const owner: string

    constructor (collection: Collection, prefix: Key, owner: string)
      ensures this.collection == collection && this.prefix == prefix && this.owner == owner
    {
      this.collection, this.prefix, this.owner := collection, prefix, owner;
    }

    function FullKey(key: Key): Key {
      if prefix != [] then prefix + [Rune('/')] + key else key
    }

    function Id(key: Key): string {
      PREFIX + Escape(Seen(FullKey(key)))
    }

    /** What this store holds for a key. */
    function Holds(docs: map<string, Doc>, key: Key): Cell {
      CellOf(docs, Id(key))
    }

    lemma SeenFullKey(key: Key)
      ensures Seen(FullKey(key)) == KeyPrefix.Full(Seen(prefix), Seen(key))
      ensures Seen(prefix) == "" <==> prefix == []
    {
      SeenAppend(prefix, []);
      if prefix != [] {
        SeenAppend(prefix + [Rune('/')], key);
        SeenAppend(prefix, [Rune('/')]);
        assert [Rune('/')][1..] == [];
        assert Seen([Rune('/')]) == "/";
      }
    }

    /** Under one prefix two keys are one document exactly when a range loop cannot tell them apart. */
    lemma SameIdIff(k1: Key, k2: Key)
      ensures Id(k1) == Id(k2) <==> Seen(k1) == Seen(k2)
    {
      SameDocumentIff(FullKey(k1), FullKey(k2));
      SeenFullKey(k1);
      SeenFullKey(k2);
      KeyPrefix.SameKeyIff(Seen(prefix), Seen(k1), Seen(k2));
    }

    /** The atomic reference in whole milliseconds, on a key of this store. */
    function Transacted(docs: map<string, Doc>, key: Key, op: Op, clock: Time, commit: Time): (Cell, Answer) {
      Reference(WholeMilliseconds, Holds(docs, key), op, owner, clock, commit)
    }

    /** No other key is touched. */
    ghost predicate SameElsewhere(docs: map<string, Doc>, docs': map<string, Doc>, key: Key) {
      forall k :: Seen(k) != Seen(key) ==> Holds(docs, k) == Holds(docs', k)
    }

    /** A write or delete of a key's document changes that key, and no other. */
    lemma Changed(docs: map<string, Doc>, docs': map<string, Doc>, key: Key)
      requires forall id :: id != Id(key) ==> CellOf(docs, id) == CellOf(docs', id)
      ensures SameElsewhere(docs, docs', key)
    {
      forall k | Seen(k) != Seen(key)
        ensures Holds(docs, k) == Holds(docs', k)
      {
        SameIdIff(k, key);
      }
    }

    lemma Wrote(docs: map<string, Doc>, key: Key, d: Doc)
      ensures Holds(docs[Id(key) := d], key) == Some(Decode(d)) && SameElsewhere(docs, docs[Id(key) := d], key)
    {
      Changed(docs, docs[Id(key) := d], key);
    }

    lemma Removed(docs: map<string, Doc>, key: Key)
      ensures Holds(docs - {Id(key)}, key) == None && SameElsewhere(docs, docs - {Id(key)}, key)
    {
      Changed(docs, docs - {Id(key)}, key);
    }

    /** The id of the document for a key. */
    method Document(key: Key) returns (id: string)
      ensures id == Id(key)
    {
      id := DocID(FullKey(key));
    }

    function Payload(val: string, ttl: int, commit: Time): Doc {
      Doc(val, owner, if ttl > 0 then ttl / MILLISECOND else 0, commit)
    }

    method PutIfAbsent(key: Key, val: string, ttl: int, clock: Time, commit: Time) returns (won: bool)
      modifies collection
      ensures (Holds(collection.docs, key), if won then Yes else No)
              == Transacted(old(collection.docs), key, Lease.PutIfAbsent(val, ttl), clock, commit)
      ensures SameElsewhere(old(collection.docs), collection.docs, key)
    {
      var id := Document(key);
      won := false;
      var found := id in collection.docs;
      if found && Live(Decode(collection.docs[id]).expires, clock) {
        return;
      }
      won := true;
      Wrote(collection.docs, key, Payload(val, ttl, commit));
      collection.docs := collection.docs[id := Payload(val, ttl, commit)];
    }

    method CompareAndSwap(key: Key, oldV: string, newV: string, ttl: int, clock: Time, commit: Time)
      returns (swapped: bool)
      modifies collection
      ensures (Holds(collection.docs, key), if swapped then Yes else No)
              == Transacted(old(collection.docs), key, Lease.CompareAndSwap(oldV, newV, ttl), clock, commit)
      ensures SameElsewhere(old(collection.docs), collection.docs, key)
    {
      var id := Document(key);
      swapped := false;
      if id !in collection.docs {
        return;
      }
      var e := Decode(collection.docs[id]);
      if !Live(e.expires, clock) || e.val != oldV {
        return;
      }
      swapped := true;
      Wrote(collection.docs, key, Payload(newV, ttl, commit));
      collection.docs := collection.docs[id := Payload(newV, ttl, commit)];
    }

    method Get(key: Key, clock: Time) returns (v: Option<string>)
      ensures (Holds(collection.docs, key), if v.Some? then Found(v.value) else NotFound)
              == Transacted(collection.docs, key, Lease.Get, clock, 0)
    {
      var id := Document(key);
      if id !in collection.docs || !Live(Decode(collection.docs[id]).expires, clock) {
        return None;
      }
      return Some(collection.docs[id].val);
    }

    method Delete(key: Key, ifValue: Option<string>) returns (deleted: bool)
      modifies collection
      ensures (Holds(collection.docs, key), if deleted then Yes else No)
              == Transacted(old(collection.docs), key, Lease.Delete(ifValue), 0, 0)
      ensures SameElsewhere(old(collection.docs), collection.docs, key)
    {
      var id := Document(key);
      if ifValue.None? {
        Removed(collection.docs, key);
        collection.docs := collection.docs - {id};
        return true;
      }
      deleted := false;
      if id !in collection.docs || collection.docs[id].val != ifValue.value {
        return;
      }
      deleted := true;
      Removed(collection.docs, key);
      collection.docs := collection.docs - {id};
    }

    /** Exactly the reference for a ttl of a millisecond or more.  A shorter positive ttl is not refused:
        it turns the lease into a permanent key. */
    method Renew(key: Key, ttl: int, clock: Time, commit: Time) returns (answer: Answer)
      modifies collection
      ensures (Holds(collection.docs, key), answer)
              == Transacted(old(collection.docs), key, Lease.Renew(ttl), clock, commit)
      ensures SameElsewhere(old(collection.docs), collection.docs, key)
    {
      if ttl <= 0 {
        return Failed;
      }
      var id := Document(key);
      if id !in collection.docs {
        return No;
      }
      var e := Decode(collection.docs[id]);
      if e.expires.None? || !Live(e.expires, clock) || e.owner != owner {
        return No;
      }
      Wrote(collection.docs, key, Payload(e.val, ttl, commit));
      collection.docs := collection.docs[id := Payload(e.val, ttl, commit)];
      return Yes;
    }
  }
  /** Two stores of different prefixes in one collection use one document exactly when one prefix is empty or
      a path above the other and the keys make up the difference. */
  lemma SharedDocumentIff(s1: FirestoreKV, k1: Key, s2: FirestoreKV, k2: Key)
    requires Seen(s1.prefix) != Seen(s2.prefix)
    ensures s1.Id(k1) == s2.Id(k2) <==>
            || KeyPrefix.Above(Seen(s1.prefix), Seen(k1), Seen(s2.prefix), Seen(k2))
            || KeyPrefix.Above(Seen(s2.prefix), Seen(k2), Seen(s1.prefix), Seen(k1))
  {
    SameDocumentIff(s1.FullKey(k1), s2.FullKey(k2));
    s1.SeenFullKey(k1);
    s2.SeenFullKey(k2);
    KeyPrefix.SharedIff(Seen(s1.prefix), Seen(k1), Seen(s2.prefix), Seen(k2));
  }
}
