/**
 Redis as the services observe it: string keys, values that may carry an
 absolute deadline in milliseconds, and commands that either take effect whole
 or report that the server could not be reached.

 An entry past its deadline may linger in the map; `Live` is what a reader sees.
 */
module Redis {
  import opened Basics

  datatype Entry<+V> = Entry(value: V, deadline: Option<int>)

  type Db<V> = map<string, Entry<V>>

  predicate Live<V>(db: Db<V>, key: string, now: int) {
    key in db && (db[key].deadline.None? || now < db[key].deadline.value)
  }

  function Lookup<V>(db: Db<V>, key: string, now: int): Option<V> {
    if Live(db, key, now) then Some(db[key].value) else None
  }

  /** go-redis sends no expiry at all for a duration that is not positive. */
  function Deadline(ttl: int, now: int): Option<int> {
    if ttl > 0 then Some(now + ttl) else None
  }

  function Stored<V>(db: Db<V>, key: string, value: V, ttl: int, now: int): Db<V> {
    db[key := Entry(value, Deadline(ttl, now))]
  }

  /** What INCR would start from: an absent or expired counter reads as zero. */
  function Count(db: Db<int>, key: string, now: int): int {
    if Live(db, key, now) then db[key].value else 0
  }

  /** INCR and DECR keep the deadline of a live counter; a new counter has none. */
  function Added(db: Db<int>, key: string, delta: int, now: int): Db<int> {
    db[key := Entry(Count(db, key, now) + delta, if Live(db, key, now) then db[key].deadline else None)]
  }

  /** EXPIRE on an existing key; a time that is not positive deletes the key. */
  function Expired<V>(db: Db<V>, key: string, ttl: int, now: int): Db<V> {
    if !Live(db, key, now) then db
    else if ttl <= 0 then db - {key}
    else db[key := db[key].(deadline := Some(now + ttl))]
  }

  class Server<V(==)> {
    var db: Db<V>
    var reachable: bool

    constructor ()
      ensures db == map[] && reachable
    {
      db, reachable := map[], true;
    }

    method Set(key: string, value: V, ttl: int, now: int) returns (ok: bool)
      modifies this`db
      ensures ok == reachable
      ensures db == if ok then Stored(old(db), key, value, ttl, now) else old(db)
    {
      ok := reachable;
      if ok {
        db := db[key := Entry(value, if ttl > 0 then Some(now + ttl) else None)];
      }
    }

    /** SET NX: stores only when the key is absent, and says whether it did. */
    method SetNX(key: string, value: V, ttl: int, now: int) returns (reply: Option<bool>)
      modifies this`db
      ensures reply == if reachable then Some(!Live(old(db), key, now)) else None
      ensures db == if reply == Some(true) then Stored(old(db), key, value, ttl, now) else old(db)
    {
      if !reachable {
        return None;
      }
      if Live(db, key, now) {
        return Some(false);
      }
      var _ := Set(key, value, ttl, now);
      reply := Some(true);
    }

    method Get(key: string, now: int) returns (reply: Result<Option<V>, ()>)
      ensures reply == if reachable then Ok(Lookup(db, key, now)) else Err(())
    {
      if !reachable {
        return Err(());
      }
      reply := Ok(if Live(db, key, now) then Some(db[key].value) else None);
    }

    method Del(key: string) returns (ok: bool)
      modifies this`db
      ensures ok == reachable
      ensures db == if ok then old(db) - {key} else old(db)
    {
      ok := reachable;
      if ok {
        db := db - {key};
      }
    }
  }
}
