/** The feed cache (a Redis key-value store with per-key expiry) and the
    three wrappers the controllers use on it: read a key, write a key with
    a time-to-live, delete a list of keys. A key `feed:<id>` is modelled by
    the user id itself: the fixed prefix makes the two interchangeable. */
module CacheUtils {
  import opened Model

  /** A stored feed and the first instant at which it counts as expired. */
  datatype Entry = Entry(value: Feed, expiresAt: int)

  type Entries = map<UserId, Entry>

  /** The time-to-live, in seconds, of a write that names none. */
  const DefaultTtl: nat := 600

  /** What a read of `key` at time `now` sees: the stored value while the
      entry is live, nothing when the key is missing or has expired. */
  function Lookup(entries: Entries, key: UserId, now: int): (r: Option<Feed>)
  {
    if key in entries && now < entries[key].expiresAt then Some(entries[key].value) else None
  }

  /** The cache after writing `value` under `key` at time `now` with the
      given time-to-live; any earlier entry for the key is replaced. */
  function Store(entries: Entries, key: UserId, value: Feed, ttl: nat, now: int): (after: Entries)
  {
    entries[key := Entry(value, now + ttl)]
  }

  /** The cache after deleting the keys one at a time, in list order. */
  function DeleteAll(entries: Entries, keys: seq<UserId>): (after: Entries)
    decreases |keys|
  {
    if keys == [] then entries else DeleteAll(entries - {keys[0]}, keys[1..])
  }

  /** Deleting a list of keys one by one removes exactly the listed keys. */
  lemma {:induction false} DeleteAllIsDifference(entries: Entries, keys: seq<UserId>)
    ensures DeleteAll(entries, keys) == entries - (set k | k in keys)
    decreases |keys|
  {
    if keys != [] {
      DeleteAllIsDifference(entries - {keys[0]}, keys[1..]);
      assert (set k | k in keys) == {keys[0]} + (set k | k in keys[1..]);
    }
  }

  /** Every listed key is gone, every unlisted key keeps its value, and no
      key is added. */
  lemma DeleteAllRemovesListed(entries: Entries, keys: seq<UserId>)
    ensures forall k :: k in DeleteAll(entries, keys) <==> k in entries && k !in keys
    ensures forall k :: k in DeleteAll(entries, keys) ==> DeleteAll(entries, keys)[k] == entries[k]
  {
    DeleteAllIsDifference(entries, keys);
  }

  /** Deleting the same keys twice is the same as deleting them once, and
      deleting a key that is not there changes nothing. */
  lemma DeleteAllIdempotent(entries: Entries, keys: seq<UserId>, absent: UserId)
    ensures DeleteAll(DeleteAll(entries, keys), keys) == DeleteAll(entries, keys)
    ensures absent !in entries ==> DeleteAll(entries, [absent] + keys) == DeleteAll(entries, keys)
  {
    DeleteAllIsDifference(entries, keys);
    DeleteAllIsDifference(DeleteAll(entries, keys), keys);
    DeleteAllIsDifference(entries, [absent] + keys);
    assert (set k | k in [absent] + keys) == {absent} + (set k | k in keys);
  }

  /** After deletion a listed key reads as missing at any time, and an
      unlisted key reads as it did before. */
  lemma LookupAfterDeleteAll(entries: Entries, keys: seq<UserId>, key: UserId, now: int)
    ensures key in keys ==> Lookup(DeleteAll(entries, keys), key, now) == None
    ensures key !in keys ==> Lookup(DeleteAll(entries, keys), key, now) == Lookup(entries, key, now)
  {
    DeleteAllIsDifference(entries, keys);
  }

  /** A value written with time-to-live `ttl` at time `written` is read back
      verbatim strictly before `written + ttl` and is missing from then on;
      the write leaves every other key as it was. */
  lemma LookupAfterStore(entries: Entries, key: UserId, value: Feed, ttl: nat, written: int, now: int, other: UserId)
    ensures Lookup(Store(entries, key, value, ttl, written), key, now)
         == if now < written + ttl then Some(value) else None
    ensures other != key ==> Lookup(Store(entries, key, value, ttl, written), other, now) == Lookup(entries, other, now)
  {
  }

  /** The shared Redis client, reduced to its key space. */
  class FeedCache {
    var entries: Entries

    constructor ()
      ensures entries == map[]
    {
      entries := map[];
    }

    /** `getCachedData`: the live value stored under `key`, or nothing. A
        stored feed is never falsy once parsed, so every live entry is a hit. */
    method GetCachedData(key: UserId, now: int) returns (r: Option<Feed>)
      ensures r.Some? <==> key in entries && now < entries[key].expiresAt
      ensures r.Some? ==> r.value == entries[key].value
      ensures r == Lookup(entries, key, now)
    {
      if key in entries && now < entries[key].expiresAt {
        r := Some(entries[key].value);
      } else {
        r := None;
      }
    }

    /** `setCacheData`: overwrite the entry for `key`; Redis refuses a
        time-to-live that is not positive. */
    method SetCacheData(key: UserId, value: Feed, now: int, ttl: nat := DefaultTtl)
      requires ttl > 0
      modifies this`entries
      ensures entries == Store(old(entries), key, value, ttl, now)
    {
      entries := entries[key := Entry(value, now + ttl)];
    }

    /** `invalidateCache`: one delete per listed key, in order. */
    method InvalidateCache(keys: seq<UserId>)
      modifies this`entries
      ensures entries == DeleteAll(old(entries), keys)
    {
      for i := 0 to |keys|
        invariant entries == old(entries) - (set k | k in keys[..i])
      {
        assert keys[..i + 1] == keys[..i] + [keys[i]];
        entries := entries - {keys[i]};
      }
      assert keys[..|keys|] == keys;
      DeleteAllIsDifference(old(entries), keys);
    }
  }
}
