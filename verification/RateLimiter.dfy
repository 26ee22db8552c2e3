/** Fixed-window request limits backed by Redis counters. */
module RateLimiting {
  import opened Basics
  import opened Decimal
  import Redis

  const GUEST := "guest_api"
  const MINUTE := 60000
  const HOUR := 3600000

  /** Windows are in milliseconds. */
  datatype Rule = Rule(requests: int, window: int, burstSize: int) {
    function Limit(): int {
      requests + burstSize
    }

    /** The rules the key layout supports: Redis expiries and key stamps are whole seconds. */
    predicate WholeSeconds() {
      0 < window && window % 1000 == 0
    }
  }

  const DEFAULT_RULES: map<string, Rule> := map[
    GUEST := Rule(30, MINUTE, 10),
    "user_api" := Rule(60, MINUTE, 20),
    "premium_api" := Rule(300, MINUTE, 50),
    "upload" := Rule(5, HOUR, 2),
    "search" := Rule(30, MINUTE, 10),
    "streaming" := Rule(300, MINUTE, 100),
    "auth" := Rule(10, MINUTE, 5)
  ]

  datatype Decision = Decision(allowed: bool, limit: int, remaining: int, resetIn: int)

  /** Milliseconds from year 1, where Time.Truncate counts from, to the Unix epoch. */
  const YEAR_ONE_TO_EPOCH := 62135596800000

  /** Time.Truncate: a window that is not positive leaves the time alone. */
  function WindowStart(window: int, now: int): int {
    if window <= 0 then now else now - (now + YEAR_ONE_TO_EPOCH) % window
  }

  /** EXPIRE takes whole seconds: go-redis drops the fraction, but never below one second. */
  function ExpiryOf(window: int): int {
    if window <= 0 then 0 else if window < 1000 then 1000 else window / 1000 * 1000
  }

  function WindowKey(ruleName: string, key: string, start: int): string {
    "ratelimit:" + ruleName + ":" + key + ":" + Itoa(start / 1000)
  }

  /** Whole seconds until a later window opens, as the 429 response reports it. */
  function RetryAfter(resetIn: nat): nat {
    resetIn / 1000 + 1
  }

  function CountedIn(db: Redis.Db<int>, windowKey: string, window: int, now: int): Redis.Db<int> {
    Redis.Expired(Redis.Added(db, windowKey, 1, now), windowKey, ExpiryOf(window), now)
  }

  function DecidedIn(db: Redis.Db<int>, windowKey: string, rule: Rule, start: int, now: int): Decision {
    var count := Redis.Count(db, windowKey, now) + 1;
    Decision(count <= rule.Limit(), rule.Limit(), Max(0, rule.Limit() - count), start + rule.window - now)
  }

  function Counted(db: Redis.Db<int>, ruleName: string, rule: Rule, key: string, now: int): Redis.Db<int> {
    CountedIn(db, WindowKey(ruleName, key, WindowStart(rule.window, now)), rule.window, now)
  }

  function Decided(db: Redis.Db<int>, ruleName: string, rule: Rule, key: string, now: int): Decision {
    var start := WindowStart(rule.window, now);
    DecidedIn(db, WindowKey(ruleName, key, start), rule, start, now)
  }

  class RateLimiter {
    const redis: Redis.Server<int>
    var rules: map<string, Rule>

    /** Each limiter starts from its own copy of the defaults. */
    constructor (redis: Redis.Server<int>)
      ensures this.redis == redis && rules == DEFAULT_RULES
    {
      this.redis, rules := redis, DEFAULT_RULES;
    }

    /** Changes what its own name means, and, for the guest rule, what names without a rule fall back to. */
    method SetRule(name: string, rule: Rule)
      modifies this
      ensures rules == old(rules)[name := rule]
      ensures Named(name) == rule
      ensures forall other :: other != name && (other in old(rules) || name != GUEST) ==> Named(other) == old(Named(other))
      ensures forall other :: other !in old(rules) && name == GUEST ==> Named(other) == rule
    {
      rules := rules[name := rule];
    }

    function Named(name: string): Rule
      reads this
    {
      if name in rules then rules[name] else if GUEST in rules then rules[GUEST] else Rule(0, 0, 0)
    }

    /** One request against one window: the pipeline of INCR and EXPIRE, and what its count means. */
    method Hit(windowKey: string, rule: Rule, start: int, now: int) returns (r: Result<Decision, ()>)
      modifies redis`db
      ensures r == if redis.reachable then Ok(DecidedIn(old(redis.db), windowKey, rule, start, now)) else Err(())
      ensures redis.db == if r.Ok? then CountedIn(old(redis.db), windowKey, rule.window, now) else old(redis.db)
    {
      if !redis.reachable {
        return Err(());
      }
      redis.db := Redis.Added(redis.db, windowKey, 1, now);
      var count := Redis.Count(redis.db, windowKey, now);
      redis.db := Redis.Expired(redis.db, windowKey, ExpiryOf(rule.window), now);
      var limit := rule.Limit();
      var remaining := limit - count;
      if remaining < 0 {
        remaining := 0;
      }
      r := Ok(Decision(count <= limit, limit, remaining, start + rule.window - now));
    }

    method Allow(key: string, ruleName: string, now: int) returns (r: Result<Decision, ()>)
      modifies redis`db
      ensures r == if redis.reachable then Ok(Decided(old(redis.db), ruleName, Named(ruleName), key, now)) else Err(())
      ensures redis.db == if r.Ok? then Counted(old(redis.db), ruleName, Named(ruleName), key, now) else old(redis.db)
    {
      var rule := Named(ruleName);
      var windowStart := WindowStart(rule.window, now);
      var windowKey := WindowKey(ruleName, key, windowStart);
      r := Hit(windowKey, rule, windowStart, now);
      assert rule == Named(ruleName);
    }
  }

  // ---- Window arithmetic and key layout ----

  lemma WindowHolds(window: int, now: int)
    requires 0 < window
    ensures WindowStart(window, now) <= now < WindowStart(window, now) + window
    ensures (WindowStart(window, now) + YEAR_ONE_TO_EPOCH) % window == 0
  {
    var z := now + YEAR_ONE_TO_EPOCH;
    assert z == window * (z / window) + z % window;
    MultipleHasNoRemainder(window, z / window);
  }

  lemma MultipleHasNoRemainder(d: int, k: int)
    requires 0 < d
    ensures (d * k) % d == 0
  {
    RemainderIsUnique(d, d * k, k, 0);
  }

  lemma RemainderIsUnique(d: int, n: int, q: int, r: int)
    requires 0 < d && n == d * q + r && 0 <= r < d
    ensures n % d == r && n / d == q
  {
    var q', r' := n / d, n % d;
    assert n == d * q' + r';
    assert d * (q - q') == r' - r;
    MultiplesAreFarApart(d, q - q');
  }

  lemma MultiplesAreFarApart(d: int, k: int)
    requires 0 < d
    ensures 1 <= k ==> d <= d * k
    ensures k <= -1 ==> d * k <= -d
  {
  }

  /** Every instant of a window shares its start; no other instant does. */
  lemma SameWindow(window: int, now: int, start: int)
    requires 0 < window && (start + YEAR_ONE_TO_EPOCH) % window == 0
    ensures WindowStart(window, now) == start <==> start <= now < start + window
  {
    WindowHolds(window, now);
    if start <= now < start + window {
      var q := (start + YEAR_ONE_TO_EPOCH) / window;
      RemainderIsUnique(window, now + YEAR_ONE_TO_EPOCH, q, now - start);
    }
  }

  /** Different windows that last a second or more start in different seconds. */
  lemma StartsInDifferentSeconds(window: int, now: int, now': int)
    requires 1000 <= window && WindowStart(window, now) < WindowStart(window, now')
    ensures WindowStart(window, now) / 1000 < WindowStart(window, now') / 1000
  {
    var s, s' := WindowStart(window, now), WindowStart(window, now');
    WindowHolds(window, now);
    WindowHolds(window, now');
    SameWindow(window, s', s);
    SameWindow(window, s', s');
  }

  lemma KeysOfWindows(ruleName: string, key: string, s: int, key': string, s': int)
    ensures WindowKey(ruleName, key, s) == WindowKey(ruleName, key', s') <==> key == key' && s / 1000 == s' / 1000
  {
    ItoaInjective(s / 1000, s' / 1000);
    ItoaInjective(s' / 1000, s / 1000);
    if WindowKey(ruleName, key, s) == WindowKey(ruleName, key', s') {
      var prefix := "ratelimit:" + ruleName + ":";
      var u, u' := key + ":" + Itoa(s / 1000), key' + ":" + Itoa(s' / 1000);
      KeyParts("ratelimit:", ruleName, key, Itoa(s / 1000));
      KeyParts("ratelimit:", ruleName, key', Itoa(s' / 1000));
      PrefixDrops(prefix, u, u');
      LastColonSplits(key, Itoa(s / 1000), key', Itoa(s' / 1000));
    }
  }

  /** With windows of a second or more, two requests share a counter exactly when they share a key and a window. */
  lemma WindowKeysSeparate(ruleName: string, rule: Rule, key: string, now: int, key': string, now': int)
    requires 1000 <= rule.window
    ensures var s, s' := WindowStart(rule.window, now), WindowStart(rule.window, now');
            WindowKey(ruleName, key, s) == WindowKey(ruleName, key', s') <==> key == key' && s == s'
  {
    var s, s' := WindowStart(rule.window, now), WindowStart(rule.window, now');
    KeysOfWindows(ruleName, key, s, key', s');
    if s < s' {
      StartsInDifferentSeconds(rule.window, now, now');
    } else if s' < s {
      StartsInDifferentSeconds(rule.window, now', now);
    }
  }

  /** Rules keep their counters apart, as long as no rule's name has a colon in it. */
  lemma RulesHaveTheirOwnKeys(ruleName: string, key: string, s: int, ruleName': string, key': string, s': int)
    requires ':' !in ruleName && ':' !in ruleName'
    requires WindowKey(ruleName, key, s) == WindowKey(ruleName', key', s')
    ensures ruleName == ruleName' && key == key' && s / 1000 == s' / 1000
  {
    var rest, rest' := key + ":" + Itoa(s / 1000), key' + ":" + Itoa(s' / 1000);
    KeyParts("ratelimit:", ruleName, key, Itoa(s / 1000));
    KeyParts("ratelimit:", ruleName', key', Itoa(s' / 1000));
    PrefixDrops("ratelimit:", ruleName + ":" + rest, ruleName' + ":" + rest');
    FirstColonSplits(ruleName, rest, ruleName', rest');
    KeysOfWindows(ruleName, key, s, key', s');
  }

  lemma KeyParts(prefix: string, ruleName: string, key: string, start: string)
    ensures prefix + ruleName + ":" + key + ":" + start == prefix + (ruleName + ":" + (key + ":" + start))
    ensures prefix + ruleName + ":" + key + ":" + start == (prefix + ruleName + ":") + (key + ":" + start)
  {
  }

  lemma PrefixDrops(prefix: string, a: string, b: string)
    requires prefix + a == prefix + b
    ensures a == b
  {
    assert a == (prefix + a)[|prefix|..] && b == (prefix + b)[|prefix|..];
  }

  lemma FirstColonSplits(a: string, b: string, a': string, b': string)
    requires a + ":" + b == a' + ":" + b' && ':' !in a && ':' !in a'
    ensures a == a' && b == b'
  {
    if |a| < |a'| {
      FirstColonShows(a, b, a', b');
    } else if |a'| < |a| {
      FirstColonShows(a', b', a, b);
    }
    var t := a + ":" + b;
    assert a == t[..|a|] && a' == t[..|a'|] && b == t[|a| + 1..] && b' == t[|a'| + 1..];
  }

  lemma FirstColonShows(a: string, b: string, a': string, b': string)
    requires a + ":" + b == a' + ":" + b' && |a| < |a'|
    ensures ':' in a'
  {
    assert a'[|a|] == (a' + ":" + b')[|a|] == (a + ":" + b)[|a|];
  }

  /** The start of a window and of the one after it, both within one second; a window that is not positive lasts an instant. */
  function CrowdedInstant(window: int): int {
    if window <= 0 then 0 else 1000 * window - YEAR_ONE_TO_EPOCH
  }

  lemma CrowdedSecond(window: int)
    requires window < 1000
    ensures var s := CrowdedInstant(window);
            var s' := s + if window <= 0 then 1 else window;
            WindowStart(window, s) == s && WindowStart(window, s') == s' && s < s' && s / 1000 == s' / 1000
  {
    if 0 < window {
      MultipleHasNoRemainder(window, 1000);
      MultipleHasNoRemainder(window, 1001);
      assert window * 1001 == 1000 * window + window;
    }
  }

  ghost predicate WindowsHaveTheirOwnKeys(ruleName: string, window: int, key: string) {
    forall now, now' ::
      WindowKey(ruleName, key, WindowStart(window, now)) == WindowKey(ruleName, key, WindowStart(window, now'))
      ==> WindowStart(window, now) == WindowStart(window, now')
  }

  /** Every window has a counter of its own exactly when windows last a second or more. */
  lemma WindowsHaveTheirOwnKeysExactlyWhen(ruleName: string, rule: Rule, key: string)
    ensures WindowsHaveTheirOwnKeys(ruleName, rule.window, key) <==> 1000 <= rule.window
  {
    if 1000 <= rule.window {
      forall now, now' |
        WindowKey(ruleName, key, WindowStart(rule.window, now)) == WindowKey(ruleName, key, WindowStart(rule.window, now'))
        ensures WindowStart(rule.window, now) == WindowStart(rule.window, now')
      {
        WindowKeysSeparate(ruleName, rule, key, now, key, now');
      }
    } else {
      CrowdedSecond(rule.window);
      var s := CrowdedInstant(rule.window);
      var s' := s + if rule.window <= 0 then 1 else rule.window;
      assert WindowKey(ruleName, key, WindowStart(rule.window, s)) == WindowKey(ruleName, key, WindowStart(rule.window, s'));
    }
  }

  lemma LastColonSplits(a: string, b: string, a': string, b': string)
    requires a + ":" + b == a' + ":" + b' && ':' !in b && ':' !in b'
    ensures a == a' && b == b'
  {
    EarlierColonShows(a, b, a', b');
    EarlierColonShows(a', b', a, b);
    var t := a + ":" + b;
    assert a == t[..|a|] && a' == t[..|a'|] && b == t[|a| + 1..] && b' == t[|a'| + 1..];
  }

  lemma EarlierColonShows(a: string, b: string, a': string, b': string)
    requires a + ":" + b == a' + ":" + b'
    ensures |a| < |a'| ==> ':' in b
  {
    if |a| < |a'| {
      var t := a + ":" + b;
      assert t[|a'|] == (a' + ":" + b')[|a'|] == ':';
      assert b[|a'| - |a| - 1] == t[|a'|];
    }
  }

  /** ResetIn is just the time until the next window begins. */
  lemma ResetInEndsTheWindow(rule: Rule, ruleName: string, db: Redis.Db<int>, key: string, now: int, t: int)
    requires 0 < rule.window && now <= t
    ensures var d := Decided(db, ruleName, rule, key, now);
            && WindowStart(rule.window, now + d.resetIn) == now + d.resetIn
            && (WindowStart(rule.window, t) == WindowStart(rule.window, now) <==> t < now + d.resetIn)
  {
    var s := WindowStart(rule.window, now);
    WindowHolds(rule.window, now);
    SameWindow(rule.window, t, s);
    var next := s + rule.window;
    var q := (s + YEAR_ONE_TO_EPOCH) / rule.window;
    assert s + YEAR_ONE_TO_EPOCH == rule.window * q;
    MultipleHasNoRemainder(rule.window, q + 1);
    assert next + YEAR_ONE_TO_EPOCH == rule.window * (q + 1);
    SameWindow(rule.window, next, next);
  }

  /**
   Remaining is how many more requests the window has room for: the next one in it is allowed
   exactly if some are left, and leaves one fewer.
   */
  lemma RemainingCountsDown(rule: Rule, ruleName: string, db: Redis.Db<int>, key: string, now: int, later: int)
    requires rule.WholeSeconds() && now <= later < now + Decided(db, ruleName, rule, key, now).resetIn
    ensures var d := Decided(db, ruleName, rule, key, now);
            var d' := Decided(Counted(db, ruleName, rule, key, now), ruleName, rule, key, later);
            && (d'.allowed <==> 0 < d.remaining)
            && d'.remaining == Max(0, d.remaining - 1)
            && d'.limit == d.limit == rule.requests + rule.burstSize
  {
    ResetInEndsTheWindow(rule, ruleName, db, key, now, later);
    WindowHolds(rule.window, now);
  }

  /** A client that waits the advertised Retry-After comes back in a later window. */
  lemma RetryAfterReachesLaterWindow(rule: Rule, ruleName: string, db: Redis.Db<int>, key: string, now: int, later: int)
    requires 0 < rule.window
    ensures 0 < Decided(db, ruleName, rule, key, now).resetIn <= rule.window
    ensures now + 1000 * RetryAfter(Decided(db, ruleName, rule, key, now).resetIn) <= later
        ==> WindowStart(rule.window, now) < WindowStart(rule.window, later)
    ensures 1000 * (RetryAfter(Decided(db, ruleName, rule, key, now).resetIn) - 1) <= Decided(db, ruleName, rule, key, now).resetIn
  {
    WindowHolds(rule.window, now);
    WindowHolds(rule.window, later);
    SameWindow(rule.window, later, WindowStart(rule.window, now));
  }
}
