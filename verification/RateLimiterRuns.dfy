/** How many requests a rule lets through, over any sequence of requests. */
module RateLimiterRuns {
  import opened Basics
  import opened RateLimiting
  import Redis

  datatype Request = Request(key: string, at: int)

  /** A run of requests, the last one outermost. */
  datatype Run = Start | Then(before: Run, last: Request)

  /** What a run depends on: where windows start, how long an untouched counter lives, and the limit. */
  datatype Counting = Counting(start: int -> int, life: int, limit: int)

  function CountingOf(rule: Rule): Counting {
    Counting(now => WindowStart(rule.window, now), ExpiryOf(rule.window), rule.Limit())
  }

  predicate InOrder(run: Run) {
    match run
    case Start => true
    case Then(before, q) => InOrder(before) && (before.Then? ==> before.last.at <= q.at)
  }

  /** In order, and over by `now`. */
  predicate UpTo(run: Run, now: int) {
    InOrder(run) && (run.Then? ==> run.last.at <= now)
  }

  function Instants(run: Run): set<int> {
    match run
    case Start => {}
    case Then(before, q) => Instants(before) + {q.at}
  }

  function KeyAt(ruleName: string, c: Counting, key: string, at: int): string {
    WindowKey(ruleName, key, c.start(at))
  }

  function CountedOnce(db: Redis.Db<int>, ruleName: string, c: Counting, q: Request): Redis.Db<int> {
    var k := KeyAt(ruleName, c, q.key, q.at);
    Redis.Expired(Redis.Added(db, k, 1, q.at), k, c.life, q.at)
  }

  /** The counters after a run of requests against one rule, from a store that holds none. */
  function CountersAfter(ruleName: string, c: Counting, run: Run): Redis.Db<int> {
    match run
    case Start => map[]
    case Then(before, q) => CountedOnce(CountersAfter(ruleName, c, before), ruleName, c, q)
  }

  /** What the counter for `key` reads at an instant after the run. */
  function CountAt(ruleName: string, c: Counting, run: Run, key: string, at: int): int {
    Redis.Count(CountersAfter(ruleName, c, run), KeyAt(ruleName, c, key, at), at)
  }

  /** Is one request more let through? */
  predicate Allowed(ruleName: string, c: Counting, before: Run, q: Request) {
    CountAt(ruleName, c, before, q.key, q.at) + 1 <= c.limit
  }

  /** Each step of a run is what Allow does and decides. */
  lemma StepsAreAllowsSteps(db: Redis.Db<int>, ruleName: string, rule: Rule, q: Request)
    ensures CountedOnce(db, ruleName, CountingOf(rule), q) == Counted(db, ruleName, rule, q.key, q.at)
    ensures Decided(db, ruleName, rule, q.key, q.at).allowed
       <==> Redis.Count(db, KeyAt(ruleName, CountingOf(rule), q.key, q.at), q.at) + 1 <= CountingOf(rule).limit
  {
    assert CountingOf(rule).start(q.at) == WindowStart(rule.window, q.at);
  }

  /** Requests the run made for `key` in the window that starts at `start`. */
  function Made(c: Counting, run: Run, key: string, start: int): nat {
    match run
    case Start => 0
    case Then(before, q) => Made(c, before, key, start) + if q.key == key && c.start(q.at) == start then 1 else 0
  }

  /** Requests the run let through for `key` at instants from `from` up to, not including, `to`. */
  function Admitted(ruleName: string, c: Counting, run: Run, key: string, from: int, to: int): nat {
    match run
    case Start => 0
    case Then(before, q) =>
      Admitted(ruleName, c, before, key, from, to)
      + if q.key == key && from <= q.at < to && Allowed(ruleName, c, before, q) then 1 else 0
  }

  // ---- Counters that outlive their windows, one for each ----

  ghost predicate OneSecondOneWindow(c: Counting) {
    forall t, t' :: c.start(t) / 1000 == c.start(t') / 1000 ==> c.start(t) == c.start(t')
  }

  ghost predicate OutlivesItsWindow(c: Counting) {
    forall t, t' :: c.start(t) == c.start(t') ==> t' < t + c.life
  }

  ghost predicate CountsRight(ruleName: string, c: Counting, run: Run, key: string, now: int) {
    CountAt(ruleName, c, run, key, now) == Made(c, run, key, c.start(now))
  }

  /** Then the live counter is exactly the number of requests made in the window. */
  lemma {:induction false} CounterIsExact(ruleName: string, c: Counting, run: Run, key: string, now: int)
    requires OneSecondOneWindow(c) && OutlivesItsWindow(c) && UpTo(run, now)
    ensures CountsRight(ruleName, c, run, key, now)
    decreases run
  {
    if run.Then? {
      var last, before := run.last, run.before;
      KeysOfWindows(ruleName, last.key, c.start(last.at), key, c.start(now));
      if last.key == key && c.start(last.at) == c.start(now) {
        CounterIsExact(ruleName, c, before, key, last.at);
      } else {
        CounterIsExact(ruleName, c, before, key, now);
      }
    }
  }

  ghost predicate AdmitsTheLimit(ruleName: string, c: Counting, run: Run, key: string, start: int, end: int) {
    Admitted(ruleName, c, run, key, start, end) == Min(Made(c, run, key, start), Max(0, c.limit))
  }

  /** And in each window the first requests up to the limit get through, and no others. */
  lemma {:induction false} WindowAdmitsTheLimit(ruleName: string, c: Counting, run: Run, key: string, start: int, end: int)
    requires OneSecondOneWindow(c) && OutlivesItsWindow(c) && InOrder(run)
    requires forall t :: c.start(t) == start <==> start <= t < end
    ensures AdmitsTheLimit(ruleName, c, run, key, start, end)
    decreases run
  {
    if run.Then? {
      var last, before := run.last, run.before;
      WindowAdmitsTheLimit(ruleName, c, before, key, start, end);
      if last.key == key && start <= last.at < end {
        CounterIsExact(ruleName, c, before, key, last.at);
      }
    }
  }

  lemma {:induction false} CountersArePositive(ruleName: string, c: Counting, run: Run)
    ensures forall k :: k in CountersAfter(ruleName, c, run) ==> 0 < CountersAfter(ruleName, c, run)[k].value
    decreases run
  {
    if run.Then? {
      CountersArePositive(ruleName, c, run.before);
    }
  }

  /** Nothing gets through a limit of nothing, nor in no time. */
  lemma {:induction false} NothingGetsThrough(ruleName: string, c: Counting, run: Run, key: string, from: int, to: int)
    requires c.limit <= 0 || to <= from
    ensures Admitted(ruleName, c, run, key, from, to) == 0
    decreases run
  {
    if run.Then? {
      NothingGetsThrough(ruleName, c, run.before, key, from, to);
      CountersArePositive(ruleName, c, run.before);
    }
  }

  // ---- Batches: many requests at one instant ----

  function Batch(run: Run, key: string, at: int, n: nat): Run {
    if n == 0 then run else Then(Batch(run, key, at, n - 1), Request(key, at))
  }

  /** The counter was last touched at `at`. */
  ghost predicate LivesOn(ruleName: string, c: Counting, run: Run, key: string, at: int) {
    var db, k := CountersAfter(ruleName, c, run), KeyAt(ruleName, c, key, at);
    k in db && db[k].deadline == Some(at + c.life)
  }

  /** A batch adds its size to the counter, and leaves it a full life. */
  lemma {:induction false} BatchCounts(ruleName: string, c: Counting, run: Run, key: string, at: int, n: nat)
    requires 0 < c.life
    ensures CountAt(ruleName, c, Batch(run, key, at, n), key, at) == CountAt(ruleName, c, run, key, at) + n
    ensures 0 < n ==> LivesOn(ruleName, c, Batch(run, key, at, n), key, at)
    decreases n
  {
    if 0 < n {
      BatchCounts(ruleName, c, run, key, at, n - 1);
    }
  }

  /** A batch the counter leaves room for gets through. */
  lemma {:induction false} BatchAdmits(ruleName: string, c: Counting, run: Run, key: string, at: int, n: nat, from: int, to: int)
    requires 0 < c.life && from <= at < to
    requires CountAt(ruleName, c, run, key, at) + n <= c.limit
    ensures Admitted(ruleName, c, Batch(run, key, at, n), key, from, to) == Admitted(ruleName, c, run, key, from, to) + n
    decreases n
  {
    if 0 < n {
      var less, q := Batch(run, key, at, n - 1), Request(key, at);
      BatchAdmits(ruleName, c, run, key, at, n - 1, from, to);
      assert Allowed(ruleName, c, less, q) by {
        BatchCounts(ruleName, c, run, key, at, n - 1);
      }
      assert Batch(run, key, at, n) == Then(less, q);
    }
  }

  lemma {:induction false} BatchOutside(ruleName: string, c: Counting, run: Run, key: string, at: int, n: nat, from: int, to: int)
    requires at < from || to <= at
    ensures Admitted(ruleName, c, Batch(run, key, at, n), key, from, to) == Admitted(ruleName, c, run, key, from, to)
    decreases n
  {
    if 0 < n {
      BatchOutside(ruleName, c, run, key, at, n - 1, from, to);
    }
  }

  lemma {:induction false} BatchIsUpTo(run: Run, key: string, at: int, n: nat)
    requires UpTo(run, at)
    ensures UpTo(Batch(run, key, at, n), at) && Instants(Batch(run, key, at, n)) <= Instants(run) + {at}
    decreases n
  {
    if 0 < n {
      BatchIsUpTo(run, key, at, n - 1);
    }
  }

  /** A counter nobody has touched is absent. */
  lemma {:induction false} UntouchedIsAbsent(ruleName: string, c: Counting, run: Run, key: string, at: int)
    requires forall t :: t in Instants(run) ==> c.start(t) / 1000 != c.start(at) / 1000
    ensures KeyAt(ruleName, c, key, at) !in CountersAfter(ruleName, c, run)
    decreases run
  {
    if run.Then? {
      UntouchedIsAbsent(ruleName, c, run.before, key, at);
      KeysOfWindows(ruleName, run.last.key, c.start(run.last.at), key, c.start(at));
    }
  }

  /** A full batch on a counter that nothing is left of. */
  lemma FreshBatch(ruleName: string, c: Counting, run: Run, key: string, at: int, from: int, to: int) returns (more: Run)
    requires 0 < c.life && 0 <= c.limit && from <= at < to && UpTo(run, at)
    requires CountAt(ruleName, c, run, key, at) == 0
    ensures more == Batch(run, key, at, c.limit) && UpTo(more, at) && Instants(more) <= Instants(run) + {at}
    ensures Admitted(ruleName, c, more, key, from, to) == Admitted(ruleName, c, run, key, from, to) + c.limit
  {
    more := Batch(run, key, at, c.limit);
    BatchIsUpTo(run, key, at, c.limit);
    BatchAdmits(ruleName, c, run, key, at, c.limit, from, to);
  }

  lemma LapsedCounter(ruleName: string, c: Counting, key: string, at: int, n: nat, later: int)
    requires 0 < c.life && at + c.life <= later && c.start(later) == c.start(at)
    ensures CountAt(ruleName, c, Batch(Start, key, at, n), key, later) == 0
  {
    BatchCounts(ruleName, c, Start, key, at, n);
  }

  /** Two full batches in one window, a counter's life apart, both get through. */
  lemma TwoBatchesGetThrough(ruleName: string, c: Counting, key: string, first: int, second: int, from: int, to: int)
    returns (run: Run)
    requires 0 < c.life && 0 <= c.limit && from <= first && first + c.life <= second < to && c.start(second) == c.start(first)
    ensures UpTo(run, second) && Instants(run) <= {first, second}
    ensures Admitted(ruleName, c, run, key, from, to) == 2 * c.limit
  {
    var one := FreshBatch(ruleName, c, Start, key, first, from, to);
    LapsedCounter(ruleName, c, key, first, c.limit, second);
    run := FreshBatch(ruleName, c, one, key, second, from, to);
  }

  /** And a third, in another window, does too. */
  lemma ThreeBatchesGetThrough(ruleName: string, c: Counting, key: string, first: int, second: int, third: int, to: int)
    returns (run: Run)
    requires 0 < c.life && 0 <= c.limit && first + c.life <= second <= third < to
    requires c.start(second) == c.start(first) && c.start(first) / 1000 != c.start(third) / 1000
    ensures UpTo(run, third) && Admitted(ruleName, c, run, key, first, to) == 3 * c.limit
  {
    var two := TwoBatchesGetThrough(ruleName, c, key, first, second, first, to);
    UntouchedIsAbsent(ruleName, c, two, key, third);
    run := FreshBatch(ruleName, c, two, key, third, first, to);
  }

  /** Two full batches in windows that start in different seconds get through, however close. */
  lemma NeighboursGetThrough(ruleName: string, c: Counting, key: string, first: int, second: int, to: int) returns (run: Run)
    requires 0 < c.life && 0 <= c.limit && first <= second < to && c.start(first) / 1000 != c.start(second) / 1000
    ensures UpTo(run, second) && Admitted(ruleName, c, run, key, first, to) == 2 * c.limit
  {
    var one := FreshBatch(ruleName, c, Start, key, first, first, to);
    UntouchedIsAbsent(ruleName, c, one, key, second);
    run := FreshBatch(ruleName, c, one, key, second, first, to);
  }

  /** A full batch uses up the limit of a later window that starts in the same second. */
  lemma NeighbourIsRefused(ruleName: string, c: Counting, key: string, first: int, second: int, to: int) returns (run: Run)
    requires 0 < c.limit && first < second < first + c.life && c.start(first) / 1000 == c.start(second) / 1000
    ensures UpTo(run, second) && 0 < Made(c, run, key, c.start(second))
    ensures Admitted(ruleName, c, run, key, second, to) == 0
  {
    var full := Batch(Start, key, first, c.limit);
    run := Then(full, Request(key, second));
    BatchIsUpTo(Start, key, first, c.limit);
    KeysOfWindows(ruleName, key, c.start(first), key, c.start(second));
    BatchCounts(ruleName, c, Start, key, first, c.limit);
    BatchOutside(ruleName, c, Start, key, first, c.limit, second, to);
  }

  // ---- Stretches no longer than a counter's life ----

  lemma {:induction false} AdmittedSplits(ruleName: string, c: Counting, run: Run, key: string, from: int, mid: int, to: int)
    requires from <= mid <= to
    ensures Admitted(ruleName, c, run, key, from, to)
         == Admitted(ruleName, c, run, key, from, mid) + Admitted(ruleName, c, run, key, mid, to)
    decreases run
  {
    if run.Then? {
      AdmittedSplits(ruleName, c, run.before, key, from, mid, to);
    }
  }

  /** Requests the run made for `key` from `from` up to, not including, `to`. */
  function Hits(run: Run, key: string, from: int, to: int): nat {
    match run
    case Start => 0
    case Then(before, q) => Hits(before, key, from, to) + if q.key == key && from <= q.at < to then 1 else 0
  }

  /** A stretch within one window and no longer than its counter lives. */
  ghost predicate Stretch(c: Counting, from: int, to: int) {
    && 0 < c.life && to <= from + c.life
    && forall t, t' :: from <= t < to && from <= t' < to ==> c.start(t) == c.start(t')
  }

  lemma {:induction false} EarlierMissAll(run: Run, key: string, from: int, to: int)
    requires UpTo(run, from - 1)
    ensures Hits(run, key, from, to) == 0
    decreases run
  {
    if run.Then? {
      EarlierMissAll(run.before, key, from, to);
    }
  }

  /** Within a stretch the counter never lapses, so it is at least the number of hits. */
  lemma {:induction false} StretchCounts(ruleName: string, c: Counting, run: Run, key: string, from: int, to: int, now: int)
    requires Stretch(c, from, to) && UpTo(run, now) && from <= now < to
    ensures Hits(run, key, from, to) <= CountAt(ruleName, c, run, key, now)
    decreases run
  {
    CountersArePositive(ruleName, c, run);
    if run.Then? {
      var last, before := run.last, run.before;
      KeysOfWindows(ruleName, key, c.start(now), last.key, c.start(last.at));
      if last.key == key && from <= last.at {
        StretchCounts(ruleName, c, before, key, from, to, last.at);
      } else if last.at < from {
        EarlierMissAll(run, key, from, to);
      } else {
        StretchCounts(ruleName, c, before, key, from, to, now);
      }
    }
  }

  lemma {:induction false} StretchAdmitsTheLimit(ruleName: string, c: Counting, run: Run, key: string, from: int, to: int)
    requires Stretch(c, from, to) && InOrder(run)
    ensures Admitted(ruleName, c, run, key, from, to) <= Min(Hits(run, key, from, to), Max(0, c.limit))
    decreases run
  {
    if run.Then? {
      var last, before := run.last, run.before;
      StretchAdmitsTheLimit(ruleName, c, before, key, from, to);
      if last.key == key && from <= last.at < to {
        StretchCounts(ruleName, c, before, key, from, to, last.at);
      }
    }
  }

  lemma TwoStretchesAdmitTwice(ruleName: string, c: Counting, run: Run, key: string, from: int, mid: int, to: int)
    requires from <= mid <= to && Stretch(c, from, mid) && Stretch(c, mid, to) && InOrder(run)
    ensures Admitted(ruleName, c, run, key, from, to) <= 2 * Max(0, c.limit)
  {
    StretchAdmitsTheLimit(ruleName, c, run, key, from, mid);
    StretchAdmitsTheLimit(ruleName, c, run, key, mid, to);
    AdmittedSplits(ruleName, c, run, key, from, mid, to);
  }

  // ---- Which windows behave ----

  lemma StartOf(rule: Rule, t: int)
    ensures CountingOf(rule).start(t) == WindowStart(rule.window, t)
  {
  }

  lemma WholeSecondsBehave(rule: Rule)
    requires rule.WholeSeconds()
    ensures OneSecondOneWindow(CountingOf(rule)) && OutlivesItsWindow(CountingOf(rule))
  {
    var c := CountingOf(rule);
    forall t, t' | c.start(t) / 1000 == c.start(t') / 1000 ensures c.start(t) == c.start(t') {
      StartOf(rule, t);
      StartOf(rule, t');
      if WindowStart(rule.window, t) < WindowStart(rule.window, t') {
        StartsInDifferentSeconds(rule.window, t, t');
      } else if WindowStart(rule.window, t') < WindowStart(rule.window, t) {
        StartsInDifferentSeconds(rule.window, t', t);
      }
    }
    forall t, t' | c.start(t) == c.start(t') ensures t' < t + c.life {
      WindowHolds(rule.window, t);
      WindowHolds(rule.window, t');
    }
  }

  lemma NextWindow(window: int, start: int)
    requires 0 < window && (start + YEAR_ONE_TO_EPOCH) % window == 0
    ensures WindowStart(window, start) == start && WindowStart(window, start + window) == start + window
  {
    var z := start + YEAR_ONE_TO_EPOCH;
    assert z == window * (z / window);
    assert z + window == window * (z / window + 1);
    MultipleHasNoRemainder(window, z / window + 1);
  }

  /** An aligned start, whatever the window. */
  lemma AlignedInstant(window: int) returns (s: int)
    ensures s == CrowdedInstant(window) && WindowStart(window, s) == s
    ensures 0 < window ==> (s + YEAR_ONE_TO_EPOCH) % window == 0 && WindowStart(window, s + window) == s + window
  {
    s := CrowdedInstant(window);
    if 0 < window {
      MultipleHasNoRemainder(window, 1000);
      NextWindow(window, s);
    }
  }

  /** With broken seconds the counter's life ends inside the window. */
  lemma LapseWithin(window: int) returns (first: int, second: int, third: int)
    requires 1000 <= window && window % 1000 != 0
    ensures second == first + ExpiryOf(window) && third == second + 1
    ensures WindowStart(window, first) == WindowStart(window, second)
    ensures WindowStart(window, first) / 1000 != WindowStart(window, third) / 1000
  {
    var s := AlignedInstant(window);
    third := s + window;
    second := third - 1;
    first := second - ExpiryOf(window);
    SameWindow(window, first, s);
    SameWindow(window, second, s);
    StartsInDifferentSeconds(window, first, third);
  }

  // ---- Exactly when the counter counts ----

  /** One request, and an instant at which its counter misleads. */
  lemma OneRequestMisleads(ruleName: string, c: Counting, key: string, at: int, now: int)
    requires at <= now
    requires || (c.life <= 0 && now == at)
             || (c.start(now) == c.start(at) && at + c.life <= now)
             || (c.start(now) != c.start(at) && c.start(now) / 1000 == c.start(at) / 1000 && now < at + c.life)
    ensures UpTo(Then(Start, Request(key, at)), now) && !CountsRight(ruleName, c, Then(Start, Request(key, at)), key, now)
  {
    var run := Then(Start, Request(key, at));
    assert CountersAfter(ruleName, c, run) == CountedOnce(map[], ruleName, c, run.last);
    assert Made(c, run, key, c.start(now)) == if c.start(at) == c.start(now) then 1 else 0;
    KeysOfWindows(ruleName, key, c.start(at), key, c.start(now));
  }

  lemma SomeCounterMisleads(ruleName: string, rule: Rule, key: string) returns (run: Run, now: int)
    requires !rule.WholeSeconds()
    ensures UpTo(run, now) && !CountsRight(ruleName, CountingOf(rule), run, key, now)
  {
    var s := AlignedInstant(rule.window);
    now := s;
    if 0 < rule.window < 1000 {
      CrowdedSecond(rule.window);
      now := s + rule.window;
    } else if 0 < rule.window {
      var second, third;
      s, second, third := LapseWithin(rule.window);
      now := second;
    }
    run := Then(Start, Request(key, s));
    StartOf(rule, s);
    StartOf(rule, now);
    OneRequestMisleads(ruleName, CountingOf(rule), key, s, now);
  }

  /** Over all runs the counter is the number of requests in its window exactly when the window is of whole seconds. */
  lemma CounterIsExactExactlyWhen(ruleName: string, rule: Rule, key: string)
    ensures (forall run, now :: UpTo(run, now) ==> CountsRight(ruleName, CountingOf(rule), run, key, now))
       <==> rule.WholeSeconds()
  {
    var c := CountingOf(rule);
    if rule.WholeSeconds() {
      WholeSecondsBehave(rule);
      forall run, now | UpTo(run, now) ensures CountsRight(ruleName, c, run, key, now) {
        CounterIsExact(ruleName, c, run, key, now);
      }
    } else {
      var run, now := SomeCounterMisleads(ruleName, rule, key);
      assert !CountsRight(ruleName, c, run, key, now);
    }
  }

  // ---- Exactly when an aligned window admits its limit ----

  ghost predicate AlignedAdmitsTheLimit(ruleName: string, rule: Rule, run: Run, key: string, start: int) {
    AdmitsTheLimit(ruleName, CountingOf(rule), run, key, start, start + rule.window)
  }

  lemma SomeWindowMisadmits(ruleName: string, rule: Rule, key: string) returns (run: Run, start: int)
    requires !rule.WholeSeconds() && 0 < rule.Limit()
    ensures InOrder(run) && start == WindowStart(rule.window, start)
    ensures !AlignedAdmitsTheLimit(ruleName, rule, run, key, start)
  {
    var c := CountingOf(rule);
    start := AlignedInstant(rule.window);
    StartOf(rule, start);
    if rule.window <= 0 {
      run := Then(Start, Request(key, start));
      NothingGetsThrough(ruleName, c, run, key, start, start + rule.window);
    } else if rule.window < 1000 {
      CrowdedSecond(rule.window);
      StartOf(rule, start + rule.window);
      run := NeighbourIsRefused(ruleName, c, key, start, start + rule.window, start + rule.window + rule.window);
      start := start + rule.window;
    } else {
      var later := start + ExpiryOf(rule.window);
      SameWindow(rule.window, later, start);
      StartOf(rule, later);
      run := TwoBatchesGetThrough(ruleName, c, key, start, later, start, start + rule.window);
    }
  }

  /** Over all runs every aligned window admits the first Limit requests exactly when it is of whole seconds, or the limit nothing. */
  lemma WindowAdmitsTheLimitExactlyWhen(ruleName: string, rule: Rule, key: string)
    ensures (forall run, start :: InOrder(run) && start == WindowStart(rule.window, start) ==>
              AlignedAdmitsTheLimit(ruleName, rule, run, key, start))
            <==> rule.WholeSeconds() || rule.Limit() <= 0
  {
    if rule.WholeSeconds() || rule.Limit() <= 0 {
      forall run, start | InOrder(run) && start == WindowStart(rule.window, start)
        ensures AlignedAdmitsTheLimit(ruleName, rule, run, key, start)
      {
        LimitIsAdmitted(ruleName, rule, run, key, start);
      }
    } else {
      var run, start := SomeWindowMisadmits(ruleName, rule, key);
      assert !AlignedAdmitsTheLimit(ruleName, rule, run, key, start);
    }
  }

  lemma LimitIsAdmitted(ruleName: string, rule: Rule, run: Run, key: string, start: int)
    requires rule.WholeSeconds() || rule.Limit() <= 0
    requires InOrder(run) && start == WindowStart(rule.window, start)
    ensures AlignedAdmitsTheLimit(ruleName, rule, run, key, start)
  {
    var c, end := CountingOf(rule), start + rule.window;
    if rule.Limit() <= 0 {
      NothingGetsThrough(ruleName, c, run, key, start, end);
    } else {
      WholeSecondsBehave(rule);
      WindowHolds(rule.window, start);
      forall t ensures c.start(t) == start <==> start <= t < end {
        StartOf(rule, t);
        SameWindow(rule.window, t, start);
      }
      WindowAdmitsTheLimit(ruleName, c, run, key, start, end);
    }
  }

  /** What a limiter starts out with: at most so many requests in so many milliseconds. */
  const DEFAULT_LIMITS: map<string, (int, int)> := map[
    "guest_api" := (40, 60000), "user_api" := (80, 60000), "premium_api" := (350, 60000), "upload" := (7, 3600000),
    "search" := (40, 60000), "streaming" := (400, 60000), "auth" := (15, 60000)
  ]

  /** Under each of the default rules a window, counted from the epoch, admits its first requests up to that number and no others. */
  lemma DefaultWindowsAdmit(ruleName: string, run: Run, key: string, start: int)
    requires ruleName in DEFAULT_LIMITS && InOrder(run) && start % DEFAULT_LIMITS[ruleName].1 == 0
    ensures ruleName in DEFAULT_RULES && DEFAULT_RULES.Keys == DEFAULT_LIMITS.Keys
    ensures var (most, span) := DEFAULT_LIMITS[ruleName];
            var c := CountingOf(DEFAULT_RULES[ruleName]);
            Admitted(ruleName, c, run, key, start, start + span) == Min(Hits(run, key, start, start + span), most)
  {
    var rule := DEFAULT_RULES[ruleName];
    assert rule.Limit() == DEFAULT_LIMITS[ruleName].0 && rule.window == DEFAULT_LIMITS[ruleName].1;
    WindowHolds(rule.window, start);
    LimitIsAdmitted(ruleName, rule, run, key, start);
    MadeAreHits(rule, run, key, start);
  }

  lemma {:induction false} MadeAreHits(rule: Rule, run: Run, key: string, start: int)
    requires 0 < rule.window && start == WindowStart(rule.window, start)
    ensures Made(CountingOf(rule), run, key, start) == Hits(run, key, start, start + rule.window)
    decreases run
  {
    if run.Then? {
      MadeAreHits(rule, run.before, key, start);
      WindowHolds(rule.window, start);
      SameWindow(rule.window, run.last.at, start);
      StartOf(rule, run.last.at);
    }
  }

  // ---- Exactly when a sliding window admits twice the limit at most ----

  ghost predicate SlidesWithinTwice(ruleName: string, rule: Rule, run: Run, key: string, from: int) {
    Admitted(ruleName, CountingOf(rule), run, key, from, from + rule.window) <= 2 * Max(0, rule.Limit())
  }

  /** The counter, whose life is in whole seconds, lives as long as the window, but for one tick of the clock at most: a millisecond here. */
  predicate NearlyWhole(window: int) {
    window < 1000 || window % 1000 <= 1
  }

  lemma PartOfWindow(rule: Rule, start: int, from: int, to: int)
    requires 0 < rule.window && (start + YEAR_ONE_TO_EPOCH) % rule.window == 0
    requires start <= from && to <= start + rule.window && to <= from + ExpiryOf(rule.window)
    ensures Stretch(CountingOf(rule), from, to)
  {
    forall t | from <= t < to ensures CountingOf(rule).start(t) == start {
      StartOf(rule, t);
      SameWindow(rule.window, t, start);
    }
  }

  /** An interval of a window's length falls into two stretches. */
  lemma TwoStretches(rule: Rule, from: int) returns (mid: int)
    requires 0 < rule.window && NearlyWhole(rule.window)
    ensures from <= mid <= from + rule.window
    ensures Stretch(CountingOf(rule), from, mid) && Stretch(CountingOf(rule), mid, from + rule.window)
  {
    var w := rule.window;
    var s := WindowStart(w, from);
    WindowHolds(w, from);
    NextWindow(w, s);
    WindowHolds(w, s + w);
    mid := if from == s then s + w - 1 else s + w;
    PartOfWindow(rule, s, from, mid);
    PartOfWindow(rule, if from == s then s else s + w, mid, from + w);
  }

  lemma SlidingWindowAdmitsTwiceTheLimit(ruleName: string, rule: Rule, run: Run, key: string, from: int)
    requires (NearlyWhole(rule.window) || rule.Limit() <= 0) && InOrder(run)
    ensures SlidesWithinTwice(ruleName, rule, run, key, from)
  {
    var c, to := CountingOf(rule), from + rule.window;
    if rule.Limit() <= 0 || rule.window <= 0 {
      NothingGetsThrough(ruleName, c, run, key, from, to);
    } else {
      var mid := TwoStretches(rule, from);
      TwoStretchesAdmitTwice(ruleName, c, run, key, from, mid, to);
    }
  }

  lemma ThreeBatchesInOneInterval(ruleName: string, rule: Rule, key: string) returns (run: Run, from: int)
    requires !NearlyWhole(rule.window) && 0 < rule.Limit()
    ensures InOrder(run) && !SlidesWithinTwice(ruleName, rule, run, key, from)
  {
    var second, third;
    from, second, third := LapseWithin(rule.window);
    StartOf(rule, from);
    StartOf(rule, second);
    StartOf(rule, third);
    run := ThreeBatchesGetThrough(ruleName, CountingOf(rule), key, from, second, third, from + rule.window);
  }

  /**
   Over all runs, and however an interval of one window's length is placed, it admits at
   most twice the limit exactly when the window is below a second, or at most a
   millisecond over whole seconds, or the limit is nothing.
   */
  lemma SlidingBoundHoldsExactlyWhen(ruleName: string, rule: Rule, key: string)
    ensures (forall run, from :: InOrder(run) ==> SlidesWithinTwice(ruleName, rule, run, key, from))
       <==> NearlyWhole(rule.window) || rule.Limit() <= 0
  {
    if NearlyWhole(rule.window) || rule.Limit() <= 0 {
      forall run, from | InOrder(run) ensures SlidesWithinTwice(ruleName, rule, run, key, from) {
        SlidingWindowAdmitsTwiceTheLimit(ruleName, rule, run, key, from);
      }
    } else {
      var run, from := ThreeBatchesInOneInterval(ruleName, rule, key);
      assert !SlidesWithinTwice(ruleName, rule, run, key, from);
    }
  }

  /** Twice the limit really does get through around every boundary between windows of a second or more. */
  lemma TwiceTheLimitIsReached(ruleName: string, rule: Rule, key: string, boundary: int) returns (run: Run)
    requires 1000 <= rule.window && 0 <= rule.Limit()
    requires WindowStart(rule.window, boundary) == boundary
    ensures InOrder(run)
    ensures Admitted(ruleName, CountingOf(rule), run, key, boundary - 1, boundary - 1 + rule.window) == 2 * rule.Limit()
  {
    StartOf(rule, boundary);
    StartOf(rule, boundary - 1);
    WindowHolds(rule.window, boundary - 1);
    StartsInDifferentSeconds(rule.window, boundary - 1, boundary);
    run := NeighboursGetThrough(ruleName, CountingOf(rule), key, boundary - 1, boundary, boundary - 1 + rule.window);
  }
}
