/** The bounded in-process tier: a map that evicts the entry closest to expiry. */
module LocalCaching {
  import opened Basics

  datatype Item = Item(value: string, expiresAt: int)

  type Items = map<string, Item>

  /** An entry is served up to and including its expiry instant. */
  predicate Expired(item: Item, now: int) {
    item.expiresAt < now
  }

  ghost predicate Oldest(items: Items, victim: string) {
    victim in items && forall key :: key in items ==> items[victim].expiresAt <= items[key].expiresAt
  }

  /** `after` is `before` less one entry nearest to expiry; an empty cache has none to lose. */
  ghost predicate EvictedOne(before: Items, after: Items) {
    if before == map[] then after == map[]
    else exists victim :: Oldest(before, victim) && after == before - {victim}
  }

  /** Overwriting never evicts; an insert evicts one entry only when the cache is full. */
  ghost predicate StoredInto(max: int, before: Items, after: Items, key: string, item: Item) {
    if key in before || |before| < max then after == before[key := item]
    else exists kept :: EvictedOne(before, kept) && after == kept[key := item]
  }

  function Swept(items: Items, now: int): Items {
    map key | key in items && !Expired(items[key], now) :: items[key]
  }

  function Looked(items: Items, key: string, now: int): (Items, Option<string>) {
    if key !in items then (items, None)
    else if Expired(items[key], now) then (items - {key}, None)
    else (items, Some(items[key].value))
  }

  /** A sweep leaves just what has not expired, and a look drops the entry it finds expired, and no other. */
  lemma SweptAndLookedExactly(items: Items, now: int, key: string, k: string)
    ensures k in Swept(items, now) <==> k in items && now <= items[k].expiresAt
    ensures k in Swept(items, now) ==> Swept(items, now)[k] == items[k]
    ensures k in Looked(items, key, now).0 <==> k in items && (k == key ==> now <= items[k].expiresAt)
    ensures k in Looked(items, key, now).0 ==> Looked(items, key, now).0[k] == items[k]
    ensures Looked(items, key, now).1 == if key in items && now <= items[key].expiresAt then Some(items[key].value) else None
  {
  }

  class LocalCache {
    var items: Items
    const max: int

    constructor (max: int)
      ensures items == map[] && this.max == max
    {
      items, this.max := map[], max;
    }

    method Get(key: string, now: int) returns (r: Option<string>)
      modifies this
      ensures (items, r) == Looked(old(items), key, now)
    {
      if key !in items {
        return None;
      }
      if items[key].expiresAt < now {
        Delete(key);
        return None;
      }
      r := Some(items[key].value);
    }

    method Set(key: string, value: string, ttl: int, now: int)
      modifies this
      ensures StoredInto(max, old(items), items, key, Item(value, now + ttl))
    {
      ghost var before := items;
      if key !in items && |items| >= max {
        EvictOldestLocked();
      }
      ghost var kept := items;
      items := items[key := Item(value, now + ttl)];
      assert !(key in before || |before| < max) ==> EvictedOne(before, kept);
    }

    /** The map is visited in whatever order the runtime picks. */
    method EvictOldestLocked()
      modifies this
      ensures EvictedOne(old(items), items)
    {
      var victim, earliest, found := "", 0, false;
      var unseen := items.Keys;
      while unseen != {}
        invariant unseen <= items.Keys && items == old(items)
        invariant found <==> unseen != items.Keys
        invariant found ==> victim in items.Keys - unseen && earliest == items[victim].expiresAt
        invariant forall key :: key in items.Keys - unseen ==> earliest <= items[key].expiresAt
        decreases |unseen|
      {
        var key :| key in unseen;
        if !found || items[key].expiresAt < earliest {
          victim, earliest, found := key, items[key].expiresAt, true;
        }
        unseen := unseen - {key};
      }
      if found {
        assert Oldest(items, victim);
        items := items - {victim};
      }
    }

    method Delete(key: string)
      modifies this
      ensures items == old(items) - {key}
    {
      items := items - {key};
    }

    /** One tick of the background sweeper. */
    method Sweep(now: int)
      modifies this
      ensures items == Swept(old(items), now)
    {
      var unseen := items.Keys;
      while unseen != {}
        invariant unseen <= old(items).Keys
        invariant forall key :: key in items <==> key in old(items) && (key in unseen || !Expired(old(items)[key], now))
        invariant forall key :: key in items ==> items[key] == old(items)[key]
        decreases |unseen|
      {
        var key :| key in unseen;
        if items[key].expiresAt < now {
          items := items - {key};
        }
        unseen := unseen - {key};
      }
    }
  }
}
