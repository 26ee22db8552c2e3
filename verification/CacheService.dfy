/** The two-tier cache: the local tier in front of Redis. */
module CacheService {
  import opened Basics
  import opened LocalCaching
  import Redis

  const MINUTE := 60000
  const DEFAULT_TTL := 300000

  datatype State = State(now: int, local: Items, redis: Redis.Db<string>, reachable: bool)

  datatype CacheError = RedisError

  type Reply = Result<Option<string>, CacheError>

  function EffectiveTTL(ttl: int): int {
    if ttl == 0 then DEFAULT_TTL else ttl
  }

  datatype Op =
    | Wait(until: int)
    | Outage(up: bool)
    | Get(key: string, reply: Reply)
    | Set(key: string, value: string, ttl: int, useLocal: bool)
    | Delete(key: string)
    | DeletePattern(matched: set<string>)
    | Sweep
    | Elsewhere(db: Redis.Db<string>)   // another process writes to Redis

  ghost predicate GetStep(max: int, s: State, s': State, key: string, reply: Reply) {
    var (looked, hit) := Looked(s.local, key, s.now);
    && s'.now == s.now && s'.redis == s.redis && s'.reachable == s.reachable
    && if hit.Some? then s'.local == looked && reply == Ok(hit)
       else if !s.reachable then s'.local == looked && reply == Err(RedisError)
       else
         var found := Redis.Lookup(s.redis, key, s.now);
         && reply == Ok(found)
         && if found.None? then s'.local == looked
            else StoredInto(max, looked, s'.local, key, Item(found.value, s.now + MINUTE))
  }

  ghost predicate SetStep(max: int, s: State, s': State, key: string, value: string, ttl: int, useLocal: bool) {
    && s'.now == s.now && s'.reachable == s.reachable
    && if !s.reachable then s' == s
       else
         var life := EffectiveTTL(ttl);
         && s'.redis == Redis.Stored(s.redis, key, value, life, s.now)
         && if useLocal then StoredInto(max, s.local, s'.local, key, Item(value, s.now + Min(life, MINUTE)))
            else s'.local == s.local
  }

  ghost predicate Step(max: int, s: State, s': State, op: Op) {
    match op
    case Wait(until) => s' == s.(now := Max(s.now, until))
    case Outage(up) => s' == s.(reachable := up)
    case Get(key, reply) => GetStep(max, s, s', key, reply)
    case Set(key, value, ttl, useLocal) => SetStep(max, s, s', key, value, ttl, useLocal)
    case Delete(key) =>
      s' == s.(local := s.local - {key}, redis := if s.reachable then s.redis - {key} else s.redis)
    case DeletePattern(matched) => s' == if s.reachable then s.(redis := s.redis - matched) else s
    case Sweep => s' == s.(local := Swept(s.local, s.now))
    case Elsewhere(db) => s' == s.(redis := db)
  }

  /** Every key some SCAN page returned. */
  function Matched(batches: seq<seq<string>>): set<string> {
    set b, k | b in batches && k in b :: k
  }

  lemma OnePageMore(batches: seq<seq<string>>, page: seq<string>)
    ensures forall k :: k in Matched(batches + [page]) <==> k in Matched(batches) || k in page
  {
    forall k | k in Matched(batches) || k in page ensures k in Matched(batches + [page]) {
      if k in page {
        assert page in batches + [page];
      } else {
        var b :| b in batches && k in b;
        assert b in batches + [page];
      }
    }
  }

  class Cache {
    const redis: Redis.Server<string>
    const local: LocalCache

    constructor (redis: Redis.Server<string>, local: LocalCache)
      ensures this.redis == redis && this.local == local
    {
      this.redis, this.local := redis, local;
    }

    ghost function View(now: int): State
      reads redis, local
    {
      State(now, local.items, redis.db, redis.reachable)
    }

    method Get(key: string, now: int) returns (reply: Reply)
      modifies local
      ensures GetStep(local.max, old(View(now)), View(now), key, reply)
    {
      var hit := local.Get(key, now);
      if hit.Some? {
        return Ok(hit);
      }
      var found := redis.Get(key, now);
      if found.Err? {
        return Err(RedisError);
      }
      if found.value.Some? {
        local.Set(key, found.value.value, MINUTE, now);
      }
      reply := Ok(found.value);
    }

    method Set(key: string, value: string, ttl: int, useLocal: bool, now: int) returns (r: Result<(), CacheError>)
      modifies local, redis`db
      ensures SetStep(local.max, old(View(now)), View(now), key, value, ttl, useLocal)
      ensures r.Ok? <==> redis.reachable
    {
      var life := if ttl == 0 then DEFAULT_TTL else ttl;
      var ok := redis.Set(key, value, life, now);
      if !ok {
        return Err(RedisError);
      }
      if useLocal {
        local.Set(key, value, if life > MINUTE then MINUTE else life, now);
      }
      r := Ok(());
    }

    method Delete(key: string, now: int) returns (r: Result<(), CacheError>)
      modifies local, redis`db
      ensures Step(local.max, old(View(now)), View(now), Op.Delete(key))
      ensures r.Ok? <==> redis.reachable
    {
      local.Delete(key);
      var ok := redis.Del(key);
      r := if ok then Ok(()) else Err(RedisError);
    }

    /** `batches` is what successive SCAN pages return; the local tier is not touched. */
    method DeletePattern(batches: seq<seq<string>>, now: int) returns (r: Result<(), CacheError>)
      modifies redis`db
      ensures Step(local.max, old(View(now)), View(now), Op.DeletePattern(Matched(batches)))
      ensures r.Ok? <==> redis.reachable
    {
      if !redis.reachable {
        return Err(RedisError);
      }
      var keys := [];
      for cursor := 0 to |batches|
        invariant redis.db == old(redis.db)
        invariant (set k | k in keys) == Matched(batches[..cursor])
      {
        keys := keys + batches[cursor];
        assert batches[..cursor + 1] == batches[..cursor] + [batches[cursor]];
        OnePageMore(batches[..cursor], batches[cursor]);
      }
      assert batches[..|batches|] == batches;
      if |keys| > 0 {
        redis.db := redis.db - set k | k in keys;
      }
      r := Ok(());
    }
  }

  // ---- Runs ----

  ghost predicate IsRun(max: int, ss: seq<State>, ops: seq<Op>) {
    && |ss| == |ops| + 1
    && forall i :: 0 <= i < |ops| ==> Step(max, ss[i], ss[i + 1], ops[i])
  }

  /** At ss[i] the key held `value` in Redis. */
  predicate HeldAt(s: State, key: string, value: string) {
    Redis.Lookup(s.redis, key, s.now) == Some(value)
  }

  /** Some state up to ss[j], no more than a minute before the item expires, had the item's value in Redis. */
  ghost predicate Sourced(ss: seq<State>, j: nat, key: string, item: Item)
    requires j < |ss|
  {
    exists i :: 0 <= i <= j && item.expiresAt - MINUTE <= ss[i].now && HeldAt(ss[i], key, item.value)
  }

  /** Storing adds one entry; every other entry left was there before. */
  lemma StoreOnlyAdds(max: int, before: Items, after: Items, key: string, item: Item, k: string)
    requires StoredInto(max, before, after, key, item) && k in after
    ensures if k == key then after[k] == item else k in before && after[k] == before[k]
  {
    if !(key in before || |before| < max) {
      var kept :| EvictedOne(before, kept) && after == kept[key := item];
    }
  }

  /** A local entry that appears in a step is the step's key, with a value Redis holds right then. */
  ghost predicate OldOrSourced(s: State, s': State, k: string)
    requires k in s'.local
  {
    || (k in s.local && s.local[k] == s'.local[k])
    || (s'.local[k].expiresAt - MINUTE <= s'.now && HeldAt(s', k, s'.local[k].value))
  }

  lemma GetIsSourced(max: int, s: State, s': State, key: string, reply: Reply, k: string)
    requires GetStep(max, s, s', key, reply) && k in s'.local
    ensures OldOrSourced(s, s', k)
  {
    var (looked, hit) := Looked(s.local, key, s.now);
    if hit.None? && s.reachable && Redis.Lookup(s.redis, key, s.now).Some? {
      StoreOnlyAdds(max, looked, s'.local, key, Item(Redis.Lookup(s.redis, key, s.now).value, s.now + MINUTE), k);
    }
  }

  lemma SetIsSourced(max: int, s: State, s': State, key: string, value: string, ttl: int, useLocal: bool, k: string)
    requires SetStep(max, s, s', key, value, ttl, useLocal) && k in s'.local
    ensures OldOrSourced(s, s', k)
  {
    if s.reachable && useLocal {
      var life := EffectiveTTL(ttl);
      StoreOnlyAdds(max, s.local, s'.local, key, Item(value, s.now + Min(life, MINUTE)), k);
    }
  }

  lemma NewEntriesAreSourced(max: int, s: State, s': State, op: Op, k: string)
    requires Step(max, s, s', op) && k in s'.local
    ensures OldOrSourced(s, s', k)
  {
    match op
    case Get(key, reply) => GetIsSourced(max, s, s', key, reply, k);
    case Set(key, value, ttl, useLocal) => SetIsSourced(max, s, s', key, value, ttl, useLocal, k);
    case _ =>
  }

  lemma {:induction false} EveryEntryIsSourced(max: int, ss: seq<State>, ops: seq<Op>, j: nat, k: string)
    requires IsRun(max, ss, ops) && j < |ss| && ss[0].local == map[]
    requires k in ss[j].local
    ensures Sourced(ss, j, k, ss[j].local[k])
  {
    assert 0 < j;
    assert Step(max, ss[j - 1], ss[j], ops[j - 1]);
    NewEntriesAreSourced(max, ss[j - 1], ss[j], ops[j - 1], k);
    if k in ss[j - 1].local && ss[j - 1].local[k] == ss[j].local[k] {
      EveryEntryIsSourced(max, ss, ops, j - 1, k);
      var i :| 0 <= i <= j - 1 && ss[j].local[k].expiresAt - MINUTE <= ss[i].now && HeldAt(ss[i], k, ss[j].local[k].value);
    }
  }

  lemma {:induction false} ClockAdvances(max: int, ss: seq<State>, ops: seq<Op>, i: nat, j: nat)
    requires IsRun(max, ss, ops) && i <= j < |ss|
    ensures ss[i].now <= ss[j].now
  {
    if i < j {
      ClockAdvances(max, ss, ops, i, j - 1);
      assert Step(max, ss[j - 1], ss[j], ops[j - 1]);
    }
  }

  /**
   Whatever mixture of reads, writes, deletions, sweeps, outages and writes by
   other processes came before, a value Get returns was the live Redis value of
   that key at some instant in the last minute.
   */
  lemma NothingOlderThanAMinute(max: int, ss: seq<State>, ops: seq<Op>, j: nat)
    requires IsRun(max, ss, ops) && j < |ops| && ss[0].local == map[]
    requires ops[j].Get? && ops[j].reply.Ok? && ops[j].reply.value.Some?
    ensures exists i :: 0 <= i <= j && ss[j].now - MINUTE <= ss[i].now <= ss[j].now
              && HeldAt(ss[i], ops[j].key, ops[j].reply.value.value)
  {
    assert Step(max, ss[j], ss[j + 1], ops[j]);
    var key, value := ops[j].key, ops[j].reply.value.value;
    if Looked(ss[j].local, key, ss[j].now).1.Some? {
      EveryEntryIsSourced(max, ss, ops, j, key);
      var item := ss[j].local[key];
      var i :| 0 <= i <= j && item.expiresAt - MINUTE <= ss[i].now && HeldAt(ss[i], key, item.value);
      ClockAdvances(max, ss, ops, i, j);
      assert ss[j].now - MINUTE <= ss[i].now <= ss[j].now && HeldAt(ss[i], key, value);
    } else {
      assert HeldAt(ss[j], key, value);
    }
  }

  // ---- When a read is exact ----

  /** What a local read would serve. */
  function Served(s: State, key: string): Option<string> {
    Looked(s.local, key, s.now).1
  }

  /** What Get would answer, if anything. */
  function Answer(s: State, key: string): Option<string> {
    if Served(s, key).Some? then Served(s, key)
    else if s.reachable then Redis.Lookup(s.redis, key, s.now)
    else None
  }

  /** Whether another process has written or removed the key. */
  predicate Touched(before: Redis.Db<string>, after: Redis.Db<string>, key: string) {
    (key in before) != (key in after) || (key in before && before[key] != after[key])
  }

  /** What was last put under the key once a step is over; None if it was deleted. */
  function Put(s: State, op: Op, key: string, last: Option<string>): Option<string> {
    match op
    case Set(k, value, _, _) => if s.reachable && k == key then Some(value) else last
    case Delete(k) => if s.reachable && k == key then None else last
    case DeletePattern(matched) => if s.reachable && key in matched then None else last
    case Elsewhere(db) => if Touched(s.redis, db, key) then Redis.Lookup(db, key, s.now) else last
    case _ => last
  }

  /** The value last put under the key in the first `j` steps. */
  function LastPut(ss: seq<State>, ops: seq<Op>, key: string, j: nat): Option<string>
    requires |ss| == |ops| + 1 && j <= |ops|
  {
    if j == 0 then None else Put(ss[j - 1], ops[j - 1], key, LastPut(ss, ops, key, j - 1))
  }

  /** A step that changes the key in Redis without going through the local tier. */
  predicate Bypasses(s: State, op: Op, key: string) {
    match op
    case Set(k, _, _, useLocal) => s.reachable && k == key && !useLocal
    case DeletePattern(matched) => s.reachable && key in matched
    case Elsewhere(db) => Touched(s.redis, db, key)
    case _ => false
  }

  /** A bypassing step does no harm while the local tier serves nothing, or the very value now put. */
  predicate Harmless(s: State, op: Op, key: string, last: Option<string>) {
    Bypasses(s, op, key) ==> Served(s, key).None? || Served(s, key) == Put(s, op, key, last)
  }

  /** Neither tier would serve anything but the value last put. */
  predicate InStep(s: State, key: string, last: Option<string>) {
    && (Served(s, key).Some? ==> Served(s, key) == last)
    && (Redis.Lookup(s.redis, key, s.now).Some? ==> Redis.Lookup(s.redis, key, s.now) == last)
  }

  predicate ReadsExactly(s: State, key: string, last: Option<string>) {
    Answer(s, key).Some? ==> Answer(s, key) == last
  }

  lemma GetStaysInStep(max: int, s: State, s': State, k: string, reply: Reply, key: string, last: Option<string>)
    requires GetStep(max, s, s', k, reply) && InStep(s, key, last)
    ensures InStep(s', key, last)
  {
    var (looked, hit) := Looked(s.local, k, s.now);
    if key in s'.local && hit.None? && s.reachable && Redis.Lookup(s.redis, k, s.now).Some? {
      StoreOnlyAdds(max, looked, s'.local, k, Item(Redis.Lookup(s.redis, k, s.now).value, s.now + MINUTE), key);
    }
  }

  lemma LocalSetStaysInStep(
    max: int, s: State, s': State, k: string, value: string, ttl: int, key: string, last: Option<string>)
    requires SetStep(max, s, s', k, value, ttl, true) && InStep(s, key, last)
    ensures InStep(s', key, Put(s, Set(k, value, ttl, true), key, last))
  {
    if s.reachable && key in s'.local {
      StoreOnlyAdds(max, s.local, s'.local, k, Item(value, s.now + Min(EffectiveTTL(ttl), MINUTE)), key);
    }
    if s.reachable && key == k {
      StoreHolds(max, s.local, s'.local, k, Item(value, s.now + Min(EffectiveTTL(ttl), MINUTE)));
    }
  }

  lemma StoreHolds(max: int, before: Items, after: Items, key: string, item: Item)
    requires StoredInto(max, before, after, key, item)
    ensures key in after && after[key] == item
  {
  }

  lemma BypassIsInStepExactlyWhen(max: int, s: State, s': State, op: Op, key: string, last: Option<string>)
    requires Step(max, s, s', op) && InStep(s, key, last) && Bypasses(s, op, key)
    ensures InStep(s', key, Put(s, op, key, last)) <==> Harmless(s, op, key, last)
    ensures Served(s', key) == Served(s, key)
  {
  }

  /** From tiers in step, a step keeps them so exactly when it is harmless. */
  lemma StepStaysInStepExactlyWhen(max: int, s: State, s': State, op: Op, key: string, last: Option<string>)
    requires Step(max, s, s', op) && InStep(s, key, last)
    ensures InStep(s', key, Put(s, op, key, last)) <==> Harmless(s, op, key, last)
  {
    if Bypasses(s, op, key) {
      BypassIsInStepExactlyWhen(max, s, s', op, key, last);
    } else {
      match op
      case Get(k, reply) => GetStaysInStep(max, s, s', k, reply, key, last);
      case Set(k, value, ttl, useLocal) =>
        if useLocal {
          LocalSetStaysInStep(max, s, s', k, value, ttl, key, last);
        }
      case _ =>
    }
  }

  ghost predicate HarmlessUpTo(ss: seq<State>, ops: seq<Op>, key: string, j: nat)
    requires |ss| == |ops| + 1 && j <= |ops|
  {
    forall k :: 0 <= k < j ==> Harmless(ss[k], ops[k], key, LastPut(ss, ops, key, k))
  }

  lemma {:induction false} RunStaysInStep(max: int, ss: seq<State>, ops: seq<Op>, key: string, j: nat)
    requires IsRun(max, ss, ops) && j <= |ops| && ss[0].local == map[] && ss[0].redis == map[]
    requires HarmlessUpTo(ss, ops, key, j)
    ensures InStep(ss[j], key, LastPut(ss, ops, key, j))
  {
    if 0 < j {
      RunStaysInStep(max, ss, ops, key, j - 1);
      StepStaysInStepExactlyWhen(max, ss[j - 1], ss[j], ops[j - 1], key, LastPut(ss, ops, key, j - 1));
    }
  }

  /** Right after a harmful step a read answers with the value before it. */
  lemma HarmfulStepIsRead(max: int, s: State, s': State, op: Op, key: string, last: Option<string>)
    requires Step(max, s, s', op) && InStep(s, key, last) && !Harmless(s, op, key, last)
    ensures Answer(s', key) == Served(s, key) && Served(s, key).Some?
    ensures !ReadsExactly(s', key, Put(s, op, key, last))
  {
    BypassIsInStepExactlyWhen(max, s, s', op, key, last);
  }

  lemma {:induction false} ExactReadsMeanNoHarm(max: int, ss: seq<State>, ops: seq<Op>, key: string, j: nat)
    requires IsRun(max, ss, ops) && j <= |ops| && ss[0].local == map[] && ss[0].redis == map[]
    requires forall k :: 0 <= k <= j ==> ReadsExactly(ss[k], key, LastPut(ss, ops, key, k))
    ensures HarmlessUpTo(ss, ops, key, j)
  {
    if 0 < j {
      ExactReadsMeanNoHarm(max, ss, ops, key, j - 1);
      RunStaysInStep(max, ss, ops, key, j - 1);
      var last := LastPut(ss, ops, key, j - 1);
      assert ReadsExactly(ss[j], key, LastPut(ss, ops, key, j));
      if !Harmless(ss[j - 1], ops[j - 1], key, last) {
        HarmfulStepIsRead(max, ss[j - 1], ss[j], ops[j - 1], key, last);
      }
    }
  }

  /**
   Over a run from an empty cache, whatever is read of a key at any moment is exactly the
   value last put there if and only if no step that bypasses the local tier comes while
   that tier still serves another value.
   */
  lemma ReadsAreExactExactlyWhen(max: int, ss: seq<State>, ops: seq<Op>, key: string, j: nat)
    requires IsRun(max, ss, ops) && j <= |ops| && ss[0].local == map[] && ss[0].redis == map[]
    ensures (forall k :: 0 <= k <= j ==> ReadsExactly(ss[k], key, LastPut(ss, ops, key, k))) <==> HarmlessUpTo(ss, ops, key, j)
  {
    if HarmlessUpTo(ss, ops, key, j) {
      forall k | 0 <= k <= j ensures ReadsExactly(ss[k], key, LastPut(ss, ops, key, k)) {
        RunStaysInStep(max, ss, ops, key, k);
      }
    }
    if forall k :: 0 <= k <= j ==> ReadsExactly(ss[k], key, LastPut(ss, ops, key, k)) {
      ExactReadsMeanNoHarm(max, ss, ops, key, j);
    }
  }

  /** Get replies with that answer. */
  lemma GetAnswers(max: int, s: State, s': State, key: string, reply: Reply)
    requires GetStep(max, s, s', key, reply) && reply.Ok?
    ensures reply.value == Answer(s, key)
  {
  }

  /** Every write goes to both tiers, and nothing bypasses the local one. */
  predicate Coherent(op: Op) {
    match op
    case Set(_, _, _, useLocal) => useLocal
    case DeletePattern(_) => false
    case Elsewhere(_) => false
    case _ => true
  }

  /** In particular, with every write going through both tiers, a hit is exactly the last value put there. */
  lemma ReadsAreExact(max: int, ss: seq<State>, ops: seq<Op>, j: nat)
    requires IsRun(max, ss, ops) && j < |ops| && ss[0].local == map[] && ss[0].redis == map[]
    requires forall i :: 0 <= i < j ==> Coherent(ops[i])
    requires ops[j].Get? && ops[j].reply.Ok? && ops[j].reply.value.Some?
    ensures ops[j].reply.value == LastPut(ss, ops, ops[j].key, j)
  {
    assert Step(max, ss[j], ss[j + 1], ops[j]);
    GetAnswers(max, ss[j], ss[j + 1], ops[j].key, ops[j].reply);
    RunStaysInStep(max, ss, ops, ops[j].key, j);
  }

  /** One write that skips the local tier is enough to serve the value before it. */
  lemma BypassingWriteServesStaleValue(max: int, key: string, first: string, second: string, s: State)
    returns (ss: seq<State>, ops: seq<Op>)
    requires 0 < max && first != second && s.local == map[] && s.reachable
    ensures IsRun(max, ss, ops) && ss[0] == s
    ensures ops == [Set(key, first, 0, true), Set(key, second, 0, false), Get(key, Ok(Some(first)))]
    ensures LastPut(ss, ops, key, 2) == Some(second)
  {
    var s1 := s.(local := map[key := Item(first, s.now + MINUTE)], redis := Redis.Stored(s.redis, key, first, DEFAULT_TTL, s.now));
    var s2 := s1.(redis := Redis.Stored(s1.redis, key, second, DEFAULT_TTL, s.now));
    ss := [s, s1, s2, s2];
    ops := [Set(key, first, 0, true), Set(key, second, 0, false), Get(key, Ok(Some(first)))];
    assert Step(max, s, s1, ops[0]);
    assert Step(max, s1, s2, ops[1]);
    assert Step(max, s2, s2, ops[2]);
  }

  // ---- What was put is found ----

  /** The local tier serves an entry up to its expiry, that instant included. */
  lemma ServedExactlyWhen(s: State, key: string, value: string)
    ensures Served(s, key) == Some(value) <==> key in s.local && s.local[key].value == value && s.now <= s.local[key].expiresAt
  {
  }

  /** A time to live of zero means five minutes. */
  function Lifetime(ttl: int): int {
    if ttl == 0 then 5 * 60 * 1000 else ttl
  }

  /** A write that Redis took is there for its lifetime, and locally, if asked for, for that or a minute, and no longer. */
  lemma WritesAreKept(max: int, s: State, s': State, key: string, value: string, ttl: int, useLocal: bool, t: int)
    requires SetStep(max, s, s', key, value, ttl, useLocal) && s.reachable && 0 < Lifetime(ttl) && s.now <= t
    ensures Redis.Lookup(s'.redis, key, t) == (if t < s.now + Lifetime(ttl) then Some(value) else None)
    ensures useLocal ==> Served(s'.(now := t), key) == if t <= s.now + Min(Lifetime(ttl), 60000) then Some(value) else None
    ensures !useLocal ==> s'.local == s.local
  {
    if useLocal {
      StoreHolds(max, s.local, s'.local, key, Item(value, s.now + Min(EffectiveTTL(ttl), MINUTE)));
    }
  }

  /** A read answers from the local tier if that has the key, else from Redis, else not at all; what came from Redis is served locally for a minute. */
  lemma ReadsAnswer(max: int, s: State, s': State, key: string, reply: Reply, t: int)
    requires GetStep(max, s, s', key, reply) && s.now <= t
    ensures s'.redis == s.redis
    ensures Served(s, key).Some? ==> reply == Ok(Served(s, key))
    ensures Served(s, key).None? && s.reachable ==> reply == Ok(Redis.Lookup(s.redis, key, s.now))
    ensures Served(s, key).None? && !s.reachable ==> reply == Err(RedisError)
    ensures Served(s, key).None? && reply.Ok? && reply.value.Some? ==>
      Served(s'.(now := t), key) == if t <= s.now + 60000 then reply.value else None
  {
    if Served(s, key).None? && reply.Ok? && reply.value.Some? {
      StoreHolds(max, Looked(s.local, key, s.now).0, s'.local, key, Item(reply.value.value, s.now + MINUTE));
    }
  }

  predicate WritesKey(op: Op, key: string) {
    match op
    case Set(k, _, _, _) => k == key
    case Delete(k) => k == key
    case DeletePattern(matched) => key in matched
    case _ => false
  }

  /** The step puts or removes something under the key, here or in another process. */
  predicate Disturbs(s: State, op: Op, key: string) {
    WritesKey(op, key) || (op.Elsewhere? && Touched(s.redis, op.db, key))
  }

  /** Redis holds the value until `deadline`, and the local tier serves no other. */
  predicate Holds(s: State, key: string, value: string, deadline: int) {
    && key in s.redis && s.redis[key] == Redis.Entry(value, Some(deadline))
    && (Served(s, key).Some? ==> Served(s, key) == Some(value))
  }

  lemma StepHolds(max: int, s: State, s': State, op: Op, key: string, value: string, deadline: int)
    requires Step(max, s, s', op) && Holds(s, key, value, deadline) && !Disturbs(s, op, key)
    ensures Holds(s', key, value, deadline)
  {
    match op
    case Get(k, reply) =>
      var (looked, hit) := Looked(s.local, k, s.now);
      if key in s'.local && hit.None? && s.reachable && Redis.Lookup(s.redis, k, s.now).Some? {
        StoreOnlyAdds(max, looked, s'.local, k, Item(Redis.Lookup(s.redis, k, s.now).value, s.now + MINUTE), key);
      }
    case Set(k, v, ttl, useLocal) =>
      if s.reachable && useLocal && key in s'.local {
        StoreOnlyAdds(max, s.local, s'.local, k, Item(v, s.now + Min(EffectiveTTL(ttl), MINUTE)), key);
      }
    case _ =>
  }

  lemma {:induction false} RunHolds(max: int, ss: seq<State>, ops: seq<Op>, i: nat, j: nat, key: string, value: string, deadline: int)
    requires IsRun(max, ss, ops) && i <= j < |ss| && Holds(ss[i], key, value, deadline)
    requires forall k :: i <= k < j ==> !Disturbs(ss[k], ops[k], key)
    ensures Holds(ss[j], key, value, deadline)
  {
    if i < j {
      RunHolds(max, ss, ops, i, j - 1, key, value, deadline);
      StepHolds(max, ss[j - 1], ss[j], ops[j - 1], key, value, deadline);
    }
  }

  /**
   Writes are read back: whatever reads, evictions, sweeps, outages and writes to other keys come between, a
   value Redis took is what every read within its lifetime answers while Redis can be reached, unless the
   key is written again. The write may bypass the local tier, provided that serves nothing else of the key.
   */
  lemma WritesAreReadBack(
    max: int, ss: seq<State>, ops: seq<Op>, i: nat, j: nat, key: string, value: string, ttl: int, useLocal: bool)
    requires IsRun(max, ss, ops) && i < j < |ops| && ops[i] == Set(key, value, ttl, useLocal) && ss[i].reachable
    requires useLocal || Served(ss[i], key).None? || Served(ss[i], key) == Some(value)
    requires 0 < Lifetime(ttl) && ss[j].now < ss[i].now + Lifetime(ttl)
    requires forall k :: i < k < j ==> !Disturbs(ss[k], ops[k], key)
    requires ops[j].Get? && ops[j].key == key && ss[j].reachable
    ensures ops[j].reply == Ok(Some(value))
  {
    assert Step(max, ss[i], ss[i + 1], ops[i]) && Step(max, ss[j], ss[j + 1], ops[j]);
    WritesAreKept(max, ss[i], ss[i + 1], key, value, ttl, useLocal, ss[i].now);
    var deadline := ss[i].now + Lifetime(ttl);
    assert Holds(ss[i + 1], key, value, deadline);
    RunHolds(max, ss, ops, i + 1, j, key, value, deadline);
    ReadsAnswer(max, ss[j], ss[j + 1], key, ops[j].reply, ss[j].now);
  }
}
