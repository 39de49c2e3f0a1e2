/** The Redis cache the albums service uses: string keys, values that expire a fixed number of
    seconds after they are set. */
module Caching {
  import opened Outcomes

  /** The default time to live of an entry, in seconds. */
  const DefaultTtl := 1800

  datatype Entry<V> = Entry(value: V, expiresAt: int)

  class Cache<V> {
    /** What the server holds, expired entries included until they are evicted. */
    var entries: map<string, Entry<V>>

    constructor()
      ensures entries == map[]
    {
      entries := map[];
    }

    /** The value under key at second now; an entry whose time to live has run out reads as absent. */
    function Lookup(key: string, now: int): (v: Option<V>)
      reads this
      ensures v.Some? <==> key in entries && now < entries[key].expiresAt
      ensures v.Some? ==> v.value == entries[key].value
    {
      if key in entries && now < entries[key].expiresAt then Some(entries[key].value) else None
    }

    /** GET key. */
    method Get(key: string, now: int) returns (v: Option<V>)
      ensures v == Lookup(key, now)
    {
      v := Lookup(key, now);
    }

    /** SET key value EX DefaultTtl. */
    method Set(key: string, value: V, now: int)
      modifies this
      ensures entries == old(entries)[key := Entry(value, now + DefaultTtl)]
      ensures forall t :: now <= t < now + DefaultTtl ==> Lookup(key, t) == Some(value)
      ensures forall t :: now + DefaultTtl <= t ==> Lookup(key, t) == None
      ensures forall k, t :: k != key ==> Lookup(k, t) == old(Lookup(k, t))
    {
      entries := entries[key := Entry(value, now + DefaultTtl)];
    }

    /** DEL key; also what the server does on its own when it evicts an entry early. */
    method Delete(key: string)
      modifies this
      ensures entries == old(entries) - {key}
      ensures forall t :: Lookup(key, t) == None
      ensures forall k, t :: k != key ==> Lookup(k, t) == old(Lookup(k, t))
    {
      entries := entries - {key};
    }
  }
}
