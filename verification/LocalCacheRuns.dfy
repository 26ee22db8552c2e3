/** What holds of the local tier over any sequence of operations. */
module LocalCacheRuns {
  import opened Basics
  import opened LocalCaching

  datatype Op = Get(key: string) | Set(key: string, value: string, ttl: int) | Delete(key: string) | Sweep

  ghost predicate Step(max: int, before: Items, after: Items, op: Op, now: int) {
    match op
    case Get(key) => after == Looked(before, key, now).0
    case Set(key, value, ttl) => StoredInto(max, before, after, key, Item(value, now + ttl))
    case Delete(key) => after == before - {key}
    case Sweep => after == Swept(before, now)
  }

  ghost predicate IsRun(max: int, states: seq<Items>, ops: seq<Op>, times: seq<int>) {
    && |states| == |ops| + 1 && |times| == |ops|
    && forall i :: 0 <= i < |ops| ==> Step(max, states[i], states[i + 1], ops[i], times[i])
  }

  lemma EvictionShrinks(before: Items, after: Items)
    requires EvictedOne(before, after)
    ensures |after| == Max(0, |before| - 1)
  {
    if before != map[] {
      var victim :| Oldest(before, victim) && after == before - {victim};
      assert after.Keys == before.Keys - {victim};
    }
  }

  lemma StepKeepsCapacity(max: int, before: Items, after: Items, op: Op, now: int)
    requires Step(max, before, after, op, now) && |before| <= Max(1, max)
    ensures |after| <= Max(1, max)
  {
    match op
    case Set(key, value, ttl) => StoringKeepsCapacity(max, before, after, key, Item(value, now + ttl));
    case _ =>
      assert after.Keys <= before.Keys;
      SubsetIsNoLarger(after.Keys, before.Keys);
  }

  lemma StoreGrowsByOne(items: Items, key: string, item: Item)
    ensures |items[key := item]| == |items| + if key in items then 0 else 1
  {
    assert items[key := item].Keys == items.Keys + {key};
  }

  lemma StoringKeepsCapacity(max: int, before: Items, after: Items, key: string, item: Item)
    requires StoredInto(max, before, after, key, item) && |before| <= Max(1, max)
    ensures |after| <= Max(1, max)
  {
    if key in before || |before| < max {
      StoreGrowsByOne(before, key, item);
    } else {
      var kept :| EvictedOne(before, kept) && after == kept[key := item];
      EvictionShrinks(before, kept);
      StoreGrowsByOne(kept, key, item);
    }
  }

  /** Any run from an empty cache holds at most max(1, max) entries, whatever max is. */
  lemma {:induction false} NeverOverCapacity(max: int, states: seq<Items>, ops: seq<Op>, times: seq<int>, j: nat)
    requires IsRun(max, states, ops, times) && j < |states| && states[0] == map[]
    ensures |states[j]| <= Max(1, max)
  {
    if 0 < j {
      NeverOverCapacity(max, states, ops, times, j - 1);
      StepKeepsCapacity(max, states[j - 1], states[j], ops[j - 1], times[j - 1]);
    }
  }

  /** Why an entry may leave: deleted, found expired, or the victim of an insert into a full cache. */
  ghost predicate LostAt(max: int, before: Items, op: Op, now: int, key: string) {
    && key in before
    && match op
       case Get(k) => k == key && Expired(before[key], now)
       case Delete(k) => k == key
       case Sweep => Expired(before[key], now)
       case Set(k, _, _) =>
         k != key && k !in before && max <= |before| && forall other :: other in before ==> before[key].expiresAt <= before[other].expiresAt
  }

  /**
   An entry written at step i and not overwritten later is still there, unchanged,
   at step j unless some step in between had one of the reasons above to drop it.
   */
  lemma {:induction false} EntriesLeaveForAReason(max: int, states: seq<Items>, ops: seq<Op>, times: seq<int>, i: nat, j: nat)
    requires IsRun(max, states, ops, times) && i < j < |states| && ops[i].Set?
    requires forall k :: i < k < j && ops[k].Set? ==> ops[k].key != ops[i].key
    ensures var key := ops[i].key;
            (key in states[j] && states[j][key] == Item(ops[i].value, times[i] + ops[i].ttl))
            || exists k :: i < k < j && LostAt(max, states[k], ops[k], times[k], key)
  {
    var key := ops[i].key;
    assert Step(max, states[j - 1], states[j], ops[j - 1], times[j - 1]);
    if i + 1 < j {
      EntriesLeaveForAReason(max, states, ops, times, i, j - 1);
      if key in states[j - 1] && states[j - 1][key] == Item(ops[i].value, times[i] + ops[i].ttl) {
        assert key !in states[j] ==> LostAt(max, states[j - 1], ops[j - 1], times[j - 1], key);
      }
    }
  }
}
