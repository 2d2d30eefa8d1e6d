/**
  The login and request rate limiter: a mutable map of attempt records under a capacity bound.
  RateLimiter is the object; the functions before it say what each method does to one record and
  to the map; the theorems are about whole runs of events on one clock.
 */
module Limiter {
  import opened Prelude

  type Time = int
  type Key = string

  /** A nil record is an absent key, a zero lockedAt is None. */
  datatype Rec = Rec(failures: int, lockedAt: Option<Time>, updatedAt: Time)

  datatype Config = Config(maxAttempts: int, windowDur: int, lockoutDur: int, maxEntries: int)

  type Attempts = map<Key, Rec>

  /** The boolean a call returns and the remaining lockout beside it. */
  datatype Answer = Answer(yes: bool, remaining: int)

  const NO := Answer(false, 0)
  const YES := Answer(true, 0)

  // ---------- one record ----------

  function Lookup(m: Attempts, k: Key): Option<Rec> { if k in m then Some(m[k]) else None }

  /** The criterion of CleanupExpired. */
  predicate Expired(c: Config, r: Rec, now: Time) {
    match r.lockedAt
    case Some(at) => now - at > c.lockoutDur
    case None => now - r.updatedAt > c.windowDur
  }

  /** No record, or one whose window has passed: Allow and RecordFailure start afresh. */
  predicate Stale(c: Config, r: Option<Rec>, now: Time) {
    r.None? || now - r.value.updatedAt > c.windowDur
  }

  function Fresh(now: Time): Rec { Rec(1, None, now) }

  function AllowRec(c: Config, r: Option<Rec>, now: Time): (Rec, Answer) {
    if Stale(c, r, now) then (Fresh(now), YES)
    else
      var rec := r.value;
      if rec.lockedAt.Some? then
        var remaining := rec.lockedAt.value + c.lockoutDur - now;
        if remaining > 0 then (rec, Answer(false, remaining)) else (Fresh(now), YES)
      else if rec.failures + 1 > c.maxAttempts
      then (Rec(rec.failures + 1, Some(now), now), Answer(false, c.lockoutDur))
      else (Rec(rec.failures + 1, None, now), YES)
  }

  function FailRec(c: Config, r: Option<Rec>, now: Time): (Rec, Answer) {
    if Stale(c, r, now) then (Fresh(now), NO)
    else
      var n := r.value.failures + 1;
      if n >= c.maxAttempts then (Rec(n, Some(now), now), Answer(true, c.lockoutDur))
      else (Rec(n, r.value.lockedAt, now), NO)
  }

  function QueryRec(c: Config, r: Option<Rec>, now: Time): (Option<Rec>, Answer) {
    if r.None? then (None, NO)
    else if r.value.lockedAt.Some? then
      var remaining := r.value.lockedAt.value + c.lockoutDur - now;
      if remaining > 0 then (r, Answer(true, remaining)) else (None, NO)
    else if Stale(c, r, now) then (None, NO)
    else (r, NO)
  }

  // ---------- the map ----------

  function Clean(c: Config, m: Attempts, now: Time): (m': Attempts)
    ensures m'.Keys <= m.Keys
  {
    map k | k in m && !Expired(c, m[k], now) :: m[k]
  }

  function EvictCount(c: Config): int {
    if c.maxEntries / 10 < 1 then 1 else c.maxEntries / 10
  }

  predicate Crowded(c: Config, m: Attempts, now: Time) {
    |m| >= c.maxEntries && |Clean(c, m, now)| >= c.maxEntries
  }

  /** Which keys ensureCapacityLocked may throw out: arbitrary ones, and only when it must. */
  predicate MayEvict(c: Config, m: Attempts, now: Time, evicted: set<Key>) {
    if Crowded(c, m, now) then
      && evicted <= Clean(c, m, now).Keys
      && |evicted| == if EvictCount(c) < |Clean(c, m, now)| then EvictCount(c) else |Clean(c, m, now)|
    else evicted == {}
  }

  function Roomy(c: Config, m: Attempts, now: Time, evicted: set<Key>): Attempts {
    if |m| < c.maxEntries then m else Clean(c, m, now) - evicted
  }

  datatype Op = Allow(key: Key) | Fail(key: Key) | Query(key: Key) | Cleanup | Reset(key: Key)

  datatype Event = Event(op: Op, now: Time, evicted: set<Key>)

  predicate Inserts(c: Config, m: Attempts, e: Event) {
    (e.op.Allow? || e.op.Fail?) && Stale(c, Lookup(m, e.op.key), e.now)
  }

  predicate Legal(c: Config, m: Attempts, e: Event) {
    if Inserts(c, m, e) then MayEvict(c, m, e.now, e.evicted) else e.evicted == {}
  }

  function After(c: Config, m: Attempts, e: Event): Attempts {
    match e.op
    case Allow(k) =>
      (if Inserts(c, m, e) then Roomy(c, m, e.now, e.evicted) else m)
        [k := AllowRec(c, Lookup(m, k), e.now).0]
    case Fail(k) =>
      (if Inserts(c, m, e) then Roomy(c, m, e.now, e.evicted) else m)
        [k := FailRec(c, Lookup(m, k), e.now).0]
    case Query(k) =>
      var r := QueryRec(c, Lookup(m, k), e.now).0;
      if r.Some? then m else m - {k}
    case Cleanup => Clean(c, m, e.now)
    case Reset(k) => m - {k}
  }

  function Reply(c: Config, m: Attempts, e: Event): Answer {
    match e.op
    case Allow(k) => AllowRec(c, Lookup(m, k), e.now).1
    case Fail(k) => FailRec(c, Lookup(m, k), e.now).1
    case Query(k) => QueryRec(c, Lookup(m, k), e.now).1
    case _ => NO
  }

  // ---------- the object ----------

  class RateLimiter {
    const cfg: Config
    var attempts: Attempts

    ghost predicate Valid()
      reads this
    {
      cfg.maxEntries >= 1 && |attempts| <= cfg.maxEntries
    }

    constructor (maxAttempts: int, windowDur: int, lockoutDur: int, maxEntries: int)
      ensures Valid() && attempts == map[]
      ensures cfg == Config(maxAttempts, windowDur, lockoutDur,
                            if maxEntries <= 0 then 10000 else maxEntries)
    {
      cfg := Config(maxAttempts, windowDur, lockoutDur, if maxEntries <= 0 then 10000 else maxEntries);
      attempts := map[];
    }

    method RemoveExpired(now: Time)
      modifies this`attempts
      ensures attempts == Clean(cfg, old(attempts), now)
    {
      var pending := attempts.Keys;
      while pending != {}
        invariant pending <= attempts.Keys <= old(attempts).Keys
        invariant forall k :: k in attempts ==> attempts[k] == old(attempts)[k]
        invariant forall k :: k in old(attempts) && k !in pending ==>
          (k in attempts <==> !Expired(cfg, old(attempts)[k], now))
        decreases |pending|
      {
        var k :| k in pending;
        if Expired(cfg, attempts[k], now) { attempts := attempts - {k}; }
        pending := pending - {k};
      }
    }

    method CleanupExpired(now: Time)
      requires Valid()
      modifies this`attempts
      ensures Valid() && attempts == After(cfg, old(attempts), Event(Cleanup, now, {}))
      ensures forall k :: k in attempts ==> k in old(attempts) && attempts[k] == old(attempts)[k]
      ensures forall k :: k in old(attempts) ==>
                (k !in attempts <==>
                 var r := old(attempts)[k];
                 if r.lockedAt.Some? then now - r.lockedAt.value > cfg.lockoutDur
                 else now - r.updatedAt > cfg.windowDur)
    {
      RemoveExpired(now);
      SmallerMap(attempts, old(attempts));
    }

    /** The eviction loop: any `count` entries, in the map's own iteration order. */
    method EvictEntries(count: int) returns (ghost evicted: set<Key>)
      requires count >= 1
      modifies this`attempts
      ensures evicted <= old(attempts).Keys && attempts == old(attempts) - evicted
      ensures |evicted| == if count < |old(attempts)| then count else |old(attempts)|
      ensures |attempts| == |old(attempts)| - |evicted|
    {
      evicted := {};
      var left := count;
      assert attempts - {} == attempts;
      while left > 0 && |attempts| > 0
        invariant 0 <= left <= count
        invariant evicted <= old(attempts).Keys && attempts == old(attempts) - evicted
        invariant |evicted| == count - left && |attempts| + |evicted| == |old(attempts)|
        decreases left
      {
        assert |attempts.Keys| > 0;
        var k :| k in attempts;
        RemoveOne(attempts, k);
        assert (old(attempts) - evicted) - {k} == old(attempts) - (evicted + {k});
        attempts := attempts - {k};
        evicted := evicted + {k};
        left := left - 1;
      }
    }

    method EnsureCapacity(now: Time) returns (ghost evicted: set<Key>)
      requires Valid()
      modifies this`attempts
      ensures MayEvict(cfg, old(attempts), now, evicted)
      ensures attempts == Roomy(cfg, old(attempts), now, evicted)
      ensures |attempts| < cfg.maxEntries
      ensures forall k :: k in attempts ==> k in old(attempts) && attempts[k] == old(attempts)[k]
      ensures |old(attempts)| < cfg.maxEntries ==> attempts == old(attempts)
      ensures forall k :: k in old(attempts) && k !in attempts && !Expired(cfg, old(attempts)[k], now) ==>
                k in evicted
      ensures evicted != {} ==> |evicted| == if cfg.maxEntries < 10 then 1 else cfg.maxEntries / 10
    {
      evicted := {};
      if |attempts| < cfg.maxEntries { return; }
      RemoveExpired(now);
      SmallerMap(attempts, old(attempts));
      if |attempts| >= cfg.maxEntries {
        var countToEvict := cfg.maxEntries / 10;
        if countToEvict < 1 { countToEvict := 1; }
        evicted := EvictEntries(countToEvict);
      } else {
        assert attempts - {} == attempts;
      }
    }

    method Allow(key: Key, now: Time) returns (a: Answer, ghost evicted: set<Key>)
      requires Valid()
      modifies this`attempts
      ensures Valid()
      ensures var e := Event(Op.Allow(key), now, evicted);
              && Legal(cfg, old(attempts), e)
              && attempts == After(cfg, old(attempts), e) && a == Reply(cfg, old(attempts), e)
    {
      evicted := {};
      if key !in attempts || now - attempts[key].updatedAt > cfg.windowDur {
        evicted := EnsureCapacity(now);
        InsertOne(attempts, key, Fresh(now));
        attempts := attempts[key := Rec(1, None, now)];
        return YES, evicted;
      }
      var rec := attempts[key];
      if rec.lockedAt.Some? {
        var remaining := rec.lockedAt.value + cfg.lockoutDur - now;
        if remaining > 0 {
          assert attempts[key := rec] == attempts;
          return Answer(false, remaining), evicted;
        }
        InsertOne(attempts, key, Rec(1, None, now));
        attempts := attempts[key := Rec(1, None, now)];
        return YES, evicted;
      }
      rec := rec.(failures := rec.failures + 1, updatedAt := now);
      if rec.failures > cfg.maxAttempts {
        InsertOne(attempts, key, rec.(lockedAt := Some(now)));
        attempts := attempts[key := rec.(lockedAt := Some(now))];
        return Answer(false, cfg.lockoutDur), evicted;
      }
      InsertOne(attempts, key, rec);
      attempts := attempts[key := rec];
      return YES, evicted;
    }

    method RecordFailure(key: Key, now: Time) returns (a: Answer, ghost evicted: set<Key>)
      requires Valid()
      modifies this`attempts
      ensures Valid()
      ensures var e := Event(Fail(key), now, evicted);
              && Legal(cfg, old(attempts), e)
              && attempts == After(cfg, old(attempts), e) && a == Reply(cfg, old(attempts), e)
    {
      evicted := {};
      if key !in attempts || now - attempts[key].updatedAt > cfg.windowDur {
        evicted := EnsureCapacity(now);
        InsertOne(attempts, key, Fresh(now));
        attempts := attempts[key := Rec(1, None, now)];
        return NO, evicted;
      }
      var rec := attempts[key];
      rec := rec.(failures := rec.failures + 1, updatedAt := now);
      if rec.failures >= cfg.maxAttempts {
        InsertOne(attempts, key, rec.(lockedAt := Some(now)));
        attempts := attempts[key := rec.(lockedAt := Some(now))];
        return Answer(true, cfg.lockoutDur), evicted;
      }
      InsertOne(attempts, key, rec);
      attempts := attempts[key := rec];
      return NO, evicted;
    }

    method IsLocked(key: Key, now: Time) returns (a: Answer)
      requires Valid()
      modifies this`attempts
      ensures Valid()
      ensures var e := Event(Query(key), now, {});
              attempts == After(cfg, old(attempts), e) && a == Reply(cfg, old(attempts), e)
    {
      SmallerMap(attempts - {key}, attempts);
      if key !in attempts {
        assert attempts - {key} == attempts;
        return NO;
      }
      var rec := attempts[key];
      if rec.lockedAt.Some? {
        var remaining := rec.lockedAt.value + cfg.lockoutDur - now;
        if remaining > 0 { return Answer(true, remaining); }
        attempts := attempts - {key};
        return NO;
      }
      if now - rec.updatedAt > cfg.windowDur { attempts := attempts - {key}; }
      return NO;
    }

    method ResetKey(key: Key)
      requires Valid()
      modifies this`attempts
      ensures Valid() && attempts == old(attempts) - {key}
    {
      SmallerMap(attempts - {key}, attempts);
      attempts := attempts - {key};
    }
  }

  lemma SmallerMap(a: Attempts, b: Attempts)
    requires a.Keys <= b.Keys
    ensures |a| <= |b|
  {
    SmallerSet(a.Keys, b.Keys);
  }

  lemma SmallerSet<T>(a: set<T>, b: set<T>)
    requires a <= b
    ensures |a| <= |b|
  {
    assert |b| == |a| + |b - a| by {
      assert b == a + (b - a);
    }
  }

  lemma RemoveOne(m: Attempts, k: Key)
    requires k in m
    ensures |m - {k}| == |m| - 1
  {
    assert (m - {k}).Keys == m.Keys - {k};
  }

  lemma InsertOne(m: Attempts, k: Key, r: Rec)
    ensures |m[k := r]| == if k in m then |m| else |m| + 1
  {
    assert m[k := r].Keys == m.Keys + {k};
  }
}
