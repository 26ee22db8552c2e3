/**
 The cap on how many requests one caller has in flight: a Redis counter that
 every request increments on arrival and decrements when its handler returns,
 rejected requests included. Each of its commands may fail on its own.
 */
module ConcurrencyLimiting {
  import opened Basics
  import Redis

  const MINUTE := 60000

  type RequestId = int

  /**
   `flights` maps each request between its INCR and its DECR to whether it was admitted;
   `uncounted` are the requests in flight that were let through while the store was unreachable.
   `lapse` is a minute after the last renewal of the counter, and None while it has had none.
   */
  datatype Gate = Gate(now: int, db: Redis.Db<int>, flights: map<RequestId, bool>, uncounted: set<RequestId>, lapse: Option<int>)

  datatype Op =
    | Wait(until: int)
    | Arrive(id: RequestId, renewed: bool)     // counted; whether the EXPIRE came through
    | ArriveUncounted(id: RequestId)           // the INCR failed
    | Leave(id: RequestId, released: bool)     // whether the DECR came through

  function Entered(db: Redis.Db<int>, key: string, renewed: bool, now: int): Redis.Db<int> {
    var db' := Redis.Added(db, key, 1, now);
    if renewed then Redis.Expired(db', key, MINUTE, now) else db'
  }

  function Left(db: Redis.Db<int>, key: string, now: int): Redis.Db<int> {
    Redis.Added(db, key, -1, now)
  }

  predicate Admits(db: Redis.Db<int>, key: string, maxConcurrent: int, now: int) {
    Redis.Count(db, key, now) + 1 <= maxConcurrent
  }

  /** A renewed counter lives for a minute and no longer. */
  lemma CounterLivesAMinute(db: Redis.Db<int>, key: string, now: int, t: int)
    requires now <= t
    ensures Redis.Live(Entered(db, key, true, now), key, t) <==> t < now + 60 * 1000
    ensures Redis.Count(Entered(db, key, true, now), key, now) == Redis.Count(db, key, now) + 1
    ensures Redis.Count(Left(db, key, now), key, now) == Redis.Count(db, key, now) - 1
  {
  }

  datatype Entry = Bypassed | Admitted | Rejected

  class ConcurrencyLimiter {
    const redis: Redis.Server<int>
    const maxConcurrent: int

    constructor (redis: Redis.Server<int>, maxConcurrent: int)
      ensures this.redis == redis && this.maxConcurrent == maxConcurrent
    {
      this.redis, this.maxConcurrent := redis, maxConcurrent;
    }

    /** Up to the handler: an unreachable store lets the request through uncounted. */
    method Enter(key: string, renewed: bool, now: int) returns (e: Entry)
      modifies redis`db
      ensures e == if !redis.reachable then Bypassed
                   else if Admits(old(redis.db), key, maxConcurrent, now) then Admitted else Rejected
      ensures redis.db == if e.Bypassed? then old(redis.db) else Entered(old(redis.db), key, renewed, now)
    {
      if !redis.reachable {
        return Bypassed;
      }
      redis.db := Redis.Added(redis.db, key, 1, now);
      var current := Redis.Count(redis.db, key, now);
      if renewed {
        redis.db := Redis.Expired(redis.db, key, MINUTE, now);
      }
      e := if current > maxConcurrent then Rejected else Admitted;
    }

    /** The deferred release of a request that was counted; its failure goes unnoticed. */
    method Leave(key: string, now: int)
      modifies redis`db
      ensures redis.db == if redis.reachable then Left(old(redis.db), key, now) else old(redis.db)
    {
      if redis.reachable {
        redis.db := Redis.Added(redis.db, key, -1, now);
      }
    }
  }

  // ---- Interleavings ----

  /** Touching a counter that has lapsed makes a new one, which nothing has renewed yet. */
  function Touched(lapse: Option<int>, now: int): Option<int> {
    if lapse.Some? && lapse.value <= now then None else lapse
  }

  ghost predicate Step(key: string, maxConcurrent: int, g: Gate, g': Gate, op: Op) {
    match op
    case Wait(until) => g' == g.(now := Max(g.now, until))
    case Arrive(id, renewed) =>
      && id !in g.flights && id !in g.uncounted
      && g' == g.(db := Entered(g.db, key, renewed, g.now),
                  lapse := if renewed then Some(g.now + MINUTE) else Touched(g.lapse, g.now),
                  flights := g.flights[id := Admits(g.db, key, maxConcurrent, g.now)])
    case ArriveUncounted(id) =>
      && id !in g.flights && id !in g.uncounted
      && g' == g.(uncounted := g.uncounted + {id})
    case Leave(id, released) =>
      if id in g.uncounted then g' == g.(uncounted := g.uncounted - {id})
      else
        && id in g.flights
        && g' == if released
                 then g.(db := Left(g.db, key, g.now), lapse := Touched(g.lapse, g.now), flights := g.flights - {id})
                 else g.(flights := g.flights - {id})
  }

  ghost predicate IsRun(key: string, maxConcurrent: int, gs: seq<Gate>, ops: seq<Op>) {
    && |gs| == |ops| + 1
    && gs[0].db == map[] && gs[0].flights == map[] && gs[0].uncounted == {} && gs[0].lapse == None
    && forall i :: 0 <= i < |ops| ==> Step(key, maxConcurrent, gs[i], gs[i + 1], ops[i])
  }

  /** The counter is exactly the number of counted requests in flight. */
  predicate Exact(key: string, g: Gate) {
    Redis.Count(g.db, key, g.now) == |g.flights|
  }

  /** Nothing counted is in flight, or the counter was renewed less than a minute ago, or has no end at all. */
  predicate Fresh(g: Gate) {
    g.flights == map[] || g.lapse.None? || g.now < g.lapse.value
  }

  /** A counted request goes, and its DECR is lost. */
  predicate LosesRelease(g: Gate, op: Op) {
    op.Leave? && op.id in g.flights && op.id !in g.uncounted && !op.released
  }

  ghost predicate Tracked(key: string, g: Gate) {
    && (key in g.db ==> g.db[key].deadline == g.lapse)
    && (key !in g.db ==> g.flights == map[] && g.lapse == None)
  }

  lemma StepKeepsTrack(key: string, maxConcurrent: int, g: Gate, g': Gate, op: Op)
    requires Step(key, maxConcurrent, g, g', op) && Tracked(key, g)
    ensures Tracked(key, g')
  {
  }

  lemma {:induction false} RunIsTracked(key: string, maxConcurrent: int, gs: seq<Gate>, ops: seq<Op>, j: nat)
    requires IsRun(key, maxConcurrent, gs, ops) && j < |gs|
    ensures Tracked(key, gs[j])
  {
    if 0 < j {
      RunIsTracked(key, maxConcurrent, gs, ops, j - 1);
      StepKeepsTrack(key, maxConcurrent, gs[j - 1], gs[j], ops[j - 1]);
    }
  }

  lemma ArrivalsAddOne(key: string, maxConcurrent: int, g: Gate, g': Gate, op: Op)
    requires Step(key, maxConcurrent, g, g', op) && op.Arrive?
    ensures |g'.flights| == |g.flights| + 1
  {
    assert g'.flights.Keys == g.flights.Keys + {op.id};
  }

  lemma DeparturesTakeOne(key: string, maxConcurrent: int, g: Gate, g': Gate, op: Op)
    requires Step(key, maxConcurrent, g, g', op) && op.Leave? && op.id !in g.uncounted
    ensures |g'.flights| == |g.flights| - 1
  {
    assert g.flights.Keys == g'.flights.Keys + {op.id};
  }

  /** From an exact counter every step leads to an exact one, unless it goes stale or a release is lost. */
  lemma StepIsExactWhen(key: string, maxConcurrent: int, g: Gate, g': Gate, op: Op)
    requires Step(key, maxConcurrent, g, g', op) && Tracked(key, g)
    requires Exact(key, g) && Fresh(g)
    ensures Exact(key, g') <==> Fresh(g') && !LosesRelease(g, op)
  {
    StepKeepsTrack(key, maxConcurrent, g, g', op);
    assert |g'.flights| == 0 <==> g'.flights == map[];
    if op.Arrive? {
      ArrivalsAddOne(key, maxConcurrent, g, g', op);
    } else if op.Leave? && op.id !in g.uncounted {
      DeparturesTakeOne(key, maxConcurrent, g, g', op);
    }
  }

  /** Up to the j-th state no counted request is in flight beside a lapsed counter, and no release is lost. */
  ghost predicate Undisturbed(gs: seq<Gate>, ops: seq<Op>, j: nat)
    requires j < |gs| == |ops| + 1
  {
    (forall k :: 0 <= k <= j ==> Fresh(gs[k])) && (forall k :: 0 <= k < j ==> !LosesRelease(gs[k], ops[k]))
  }

  ghost predicate ExactThroughout(key: string, gs: seq<Gate>, j: nat)
    requires j < |gs|
  {
    forall k :: 0 <= k <= j ==> Exact(key, gs[k])
  }

  /**
   The counter equals the number of counted requests in flight throughout a run exactly when
   it is renewed every minute while any is in flight, and every release comes through.
   */
  lemma {:induction false} CounterIsExactExactlyWhen(key: string, maxConcurrent: int, gs: seq<Gate>, ops: seq<Op>, j: nat)
    requires IsRun(key, maxConcurrent, gs, ops) && j < |gs|
    ensures ExactThroughout(key, gs, j) <==> Undisturbed(gs, ops, j)
  {
    if 0 < j {
      CounterIsExactExactlyWhen(key, maxConcurrent, gs, ops, j - 1);
      RunIsTracked(key, maxConcurrent, gs, ops, j - 1);
      assert ExactThroughout(key, gs, j) <==> ExactThroughout(key, gs, j - 1) && Exact(key, gs[j]);
      assert Undisturbed(gs, ops, j) <==>
        Undisturbed(gs, ops, j - 1) && Fresh(gs[j]) && !LosesRelease(gs[j - 1], ops[j - 1]);
      if Undisturbed(gs, ops, j - 1) {
        assert Exact(key, gs[j - 1]);
        StepIsExactWhen(key, maxConcurrent, gs[j - 1], gs[j], ops[j - 1]);
      }
    }
  }

  // ---- The cap ----

  /** As long as the counter is exact a request is admitted exactly while fewer than the cap are in flight, rejected ones included. */
  lemma AdmittedExactlyBelowTheCap(key: string, maxConcurrent: int, gs: seq<Gate>, ops: seq<Op>, j: nat)
    requires IsRun(key, maxConcurrent, gs, ops) && j < |ops| && ops[j].Arrive? && Undisturbed(gs, ops, j)
    ensures ops[j].id in gs[j + 1].flights
    ensures gs[j + 1].flights[ops[j].id] <==> |gs[j].flights| < maxConcurrent
  {
    CounterIsExactExactlyWhen(key, maxConcurrent, gs, ops, j);
    assert Exact(key, gs[j]) && Step(key, maxConcurrent, gs[j], gs[j + 1], ops[j]);
  }

  /** The handlers running for requests that were counted. */
  function Running(g: Gate): set<RequestId> {
    set id | id in g.flights && g.flights[id]
  }

  /** The counter never falls short of what is in flight. */
  predicate Covers(key: string, g: Gate) {
    |g.flights| <= Redis.Count(g.db, key, g.now)
  }

  lemma StepCovers(key: string, maxConcurrent: int, g: Gate, g': Gate, op: Op)
    requires Step(key, maxConcurrent, g, g', op) && Tracked(key, g)
    requires Covers(key, g) && Fresh(g')
    ensures Covers(key, g')
  {
    StepKeepsTrack(key, maxConcurrent, g, g', op);
    if op.Arrive? {
      ArrivalsAddOne(key, maxConcurrent, g, g', op);
    } else if op.Leave? && op.id !in g.uncounted {
      DeparturesTakeOne(key, maxConcurrent, g, g', op);
    }
  }

  lemma StepKeepsRunningBounded(key: string, maxConcurrent: int, g: Gate, g': Gate, op: Op)
    requires Step(key, maxConcurrent, g, g', op)
    requires Covers(key, g) && |Running(g)| <= Max(0, maxConcurrent)
    ensures |Running(g')| <= Max(0, maxConcurrent)
  {
    if op.Arrive? && g'.flights[op.id] {
      ArrivalsAddOne(key, maxConcurrent, g, g', op);
      SubsetIsNoLarger(Running(g'), g'.flights.Keys);
    } else {
      SubsetIsNoLarger(Running(g'), Running(g));
    }
  }

  lemma {:induction false} RunCovers(key: string, maxConcurrent: int, gs: seq<Gate>, ops: seq<Op>, j: nat)
    requires IsRun(key, maxConcurrent, gs, ops) && j < |gs|
    requires forall k :: 0 <= k <= j ==> Fresh(gs[k])
    ensures Covers(key, gs[j])
  {
    if 0 < j {
      RunCovers(key, maxConcurrent, gs, ops, j - 1);
      RunIsTracked(key, maxConcurrent, gs, ops, j - 1);
      StepCovers(key, maxConcurrent, gs[j - 1], gs[j], ops[j - 1]);
    }
  }

  /**
   In every run whose counter does not lapse over a request in flight, lost releases or not, at
   most maxConcurrent handlers run at once beside those let through during an outage.
   */
  lemma {:induction false} NeverTooManyRunning(key: string, maxConcurrent: int, gs: seq<Gate>, ops: seq<Op>, j: nat)
    requires IsRun(key, maxConcurrent, gs, ops) && j < |gs|
    requires forall k :: 0 <= k < j ==> Fresh(gs[k])
    ensures |Running(gs[j])| <= Max(0, maxConcurrent)
    ensures |Running(gs[j]) + gs[j].uncounted| <= Max(0, maxConcurrent) + |gs[j].uncounted|
  {
    if j == 0 {
      assert Running(gs[0]) == {};
    } else {
      NeverTooManyRunning(key, maxConcurrent, gs, ops, j - 1);
      RunCovers(key, maxConcurrent, gs, ops, j - 1);
      StepKeepsRunningBounded(key, maxConcurrent, gs[j - 1], gs[j], ops[j - 1]);
    }
  }

  /** One handler that outlives the counter is enough to let a second one in beside it. */
  lemma SlowHandlerIsForgotten(key: string, start: int) returns (gs: seq<Gate>, ops: seq<Op>)
    ensures ops == [Arrive(1, true), Wait(start + MINUTE), Arrive(2, true)]
    ensures IsRun(key, 1, gs, ops) && gs[0].now == start && |Running(gs[3])| == 2
  {
    var g0 := Gate(start, map[], map[], {}, None);
    var g1 := g0.(db := Entered(g0.db, key, true, start), lapse := Some(start + MINUTE), flights := map[1 := true]);
    var g2 := g1.(now := start + MINUTE);
    var g3 := g2.(db := Entered(g2.db, key, true, g2.now), lapse := Some(g2.now + MINUTE), flights := map[1 := true, 2 := true]);
    gs, ops := [g0, g1, g2, g3], [Arrive(1, true), Wait(start + MINUTE), Arrive(2, true)];
    assert Step(key, 1, g0, g1, ops[0]);
    assert Step(key, 1, g1, g2, ops[1]);
    assert Step(key, 1, g2, g3, ops[2]);
    assert Running(g3) == {1, 2};
  }

  /** One lost release is enough to shut the caller out of a cap of one, with nothing in flight. */
  lemma LostReleaseTakesASlot(key: string, start: int) returns (gs: seq<Gate>, ops: seq<Op>)
    ensures ops == [Arrive(1, true), Leave(1, false), Arrive(2, true)]
    ensures IsRun(key, 1, gs, ops) && gs[0].now == gs[3].now == start
    ensures gs[2].flights == map[] && gs[3].flights == map[2 := false]
  {
    var g0 := Gate(start, map[], map[], {}, None);
    var g1 := g0.(db := Entered(g0.db, key, true, start), lapse := Some(start + MINUTE), flights := map[1 := true]);
    var g2 := g1.(flights := map[]);
    var g3 := g2.(db := Entered(g2.db, key, true, start), flights := map[2 := false]);
    gs, ops := [g0, g1, g2, g3], [Arrive(1, true), Leave(1, false), Arrive(2, true)];
    assert Step(key, 1, g0, g1, ops[0]);
    assert Step(key, 1, g1, g2, ops[1]);
    assert Step(key, 1, g2, g3, ops[2]);
  }
}
