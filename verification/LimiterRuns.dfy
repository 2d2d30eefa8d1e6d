/** What the rate limiter promises over whole runs of interleaved calls on one monotone clock. */
module LimiterRuns {
  import opened Prelude
  import opened Limiter

  // ---------- runs ----------

  ghost predicate Monotone(es: seq<Event>, from: Time) {
    es == [] || (es[0].now >= from && Monotone(es[1..], es[0].now))
  }

  ghost predicate LegalRun(c: Config, m: Attempts, es: seq<Event>)
    decreases |es|
  {
    es == [] || (Legal(c, m, es[0]) && LegalRun(c, After(c, m, es[0]), es[1..]))
  }

  function Replies(c: Config, m: Attempts, es: seq<Event>): (r: seq<Answer>)
    ensures |r| == |es|
    decreases |es|
  {
    if es == [] then [] else [Reply(c, m, es[0])] + Replies(c, After(c, m, es[0]), es[1..])
  }

  function Final(c: Config, m: Attempts, es: seq<Event>): Attempts
    decreases |es|
  {
    if es == [] then m else Final(c, After(c, m, es[0]), es[1..])
  }

  function AdmittedAt(c: Config, m: Attempts, e: Event, key: Key): seq<Time> {
    if e.op == Allow(key) && Reply(c, m, e).yes then [e.now] else []
  }

  /** The times at which Allow let `key` through. */
  function Admitted(c: Config, m: Attempts, es: seq<Event>, key: Key): seq<Time>
    decreases |es|
  {
    if es == [] then []
    else AdmittedAt(c, m, es[0], key) + Admitted(c, After(c, m, es[0]), es[1..], key)
  }

  /** No Reset of the key and no eviction of it; everything else may be interleaved. */
  ghost predicate Untouched(es: seq<Event>, key: Key) {
    forall i :: 0 <= i < |es| ==> es[i].op != Reset(key) && key !in es[i].evicted
  }

  lemma ConsRun(c: Config, m: Attempts, e: Event, es: seq<Event>, from: Time, key: Key)
    ensures LegalRun(c, m, [e] + es) <==> Legal(c, m, e) && LegalRun(c, After(c, m, e), es)
    ensures Monotone([e] + es, from) <==> e.now >= from && Monotone(es, e.now)
    ensures Untouched([e] + es, key)
            <==> e.op != Reset(key) && key !in e.evicted && Untouched(es, key)
    ensures Admitted(c, m, [e] + es, key)
            == AdmittedAt(c, m, e, key) + Admitted(c, After(c, m, e), es, key)
  {
    var run := [e] + es;
    assert run[0] == e && run[1..] == es;
    assert forall i :: 0 <= i < |es| ==> run[i + 1] == es[i];
  }

  lemma ConsReplies(c: Config, m: Attempts, e: Event, es: seq<Event>)
    ensures Replies(c, m, [e] + es) == [Reply(c, m, e)] + Replies(c, After(c, m, e), es)
  {
    assert ([e] + es)[1..] == es;
  }

  function LastTime(es: seq<Event>, from: Time): Time {
    if es == [] then from else es[|es| - 1].now
  }

  lemma {:induction false} AppendRun(c: Config, m: Attempts, a: seq<Event>, b: seq<Event>, from: Time)
    ensures LegalRun(c, m, a + b) <==> LegalRun(c, m, a) && LegalRun(c, Final(c, m, a), b)
    ensures Monotone(a + b, from) <==> Monotone(a, from) && Monotone(b, LastTime(a, from))
    ensures Replies(c, m, a + b) == Replies(c, m, a) + Replies(c, Final(c, m, a), b)
    ensures Final(c, m, a + b) == Final(c, Final(c, m, a), b)
    decreases |a|
  {
    if a == [] {
      assert a + b == b;
    } else {
      var e, rest := a[0], a[1..];
      assert a + b == [e] + (rest + b) && a == [e] + rest;
      AppendRun(c, After(c, m, e), rest, b, e.now);
      ConsRun(c, m, e, rest + b, from, "");
      ConsReplies(c, m, e, rest + b);
      ConsFinal(c, m, e, rest + b);
    }
  }

  lemma ConsFinal(c: Config, m: Attempts, e: Event, es: seq<Event>)
    ensures Final(c, m, [e] + es) == Final(c, After(c, m, e), es)
  {
    assert ([e] + es)[1..] == es;
  }

  // ---------- bursts of one key ----------

  /** All events are this operation, each at most one window after the one before. */
  ghost predicate Repeated(c: Config, es: seq<Event>, op: Op) {
    && (forall i :: 0 <= i < |es| ==> es[i].op == op)
    && forall i :: 0 < i < |es| ==> es[i].now - es[i - 1].now <= c.windowDur
  }

  lemma SplitRun(c: Config, m: Attempts, es: seq<Event>)
    requires es != [] && LegalRun(c, m, es)
    ensures var n := |es| - 1;
            && LegalRun(c, m, es[..n]) && Legal(c, Final(c, m, es[..n]), es[n])
            && Replies(c, m, es) == Replies(c, m, es[..n]) + [Reply(c, Final(c, m, es[..n]), es[n])]
            && Final(c, m, es) == After(c, Final(c, m, es[..n]), es[n])
  {
    var n := |es| - 1;
    assert es == es[..n] + [es[n]];
    AppendRun(c, m, es[..n], [es[n]], 0);
  }

  /**
    A burst of requests on a key without a live record: the first `maxAttempts` are let through, and the
    next one locks the key for the whole lockout.
   */
  lemma {:induction false} RequestsUntilLocked(c: Config, m: Attempts, es: seq<Event>, k: Key)
    requires c.maxAttempts >= 1 && 0 < |es| <= c.maxAttempts + 1
    requires LegalRun(c, m, es) && Repeated(c, es, Allow(k)) && Stale(c, Lookup(m, k), es[0].now)
    ensures forall i :: 0 <= i < |es| ==>
              Replies(c, m, es)[i] == if i < c.maxAttempts then Answer(true, 0) else Answer(false, c.lockoutDur)
    ensures var last := es[|es| - 1].now;
            Lookup(Final(c, m, es), k)
            == Some(Rec(|es|, if |es| > c.maxAttempts then Some(last) else None, last))
    decreases |es|
  {
    var n := |es| - 1;
    SplitRun(c, m, es);
    if n == 0 {
      assert es[..n] == [];
    } else {
      RequestsUntilLocked(c, m, es[..n], k);
    }
  }

  /**
    A burst of failures on a key without a live record: the failure that makes them `maxAttempts`, the
    second at the earliest, locks the key for the whole lockout, and none before it does.
   */
  lemma {:induction false} FailuresUntilLocked(c: Config, m: Attempts, es: seq<Event>, k: Key)
    requires 0 < |es| && (|es| <= c.maxAttempts || |es| <= 2)
    requires LegalRun(c, m, es) && Repeated(c, es, Fail(k)) && Stale(c, Lookup(m, k), es[0].now)
    ensures forall i :: 0 <= i < |es| ==>
              Replies(c, m, es)[i]
              == if i > 0 && i + 1 >= c.maxAttempts then Answer(true, c.lockoutDur) else Answer(false, 0)
    ensures var last := es[|es| - 1].now;
            Lookup(Final(c, m, es), k)
            == Some(Rec(|es|, if |es| > 1 && |es| >= c.maxAttempts then Some(last) else None, last))
    decreases |es|
  {
    var n := |es| - 1;
    SplitRun(c, m, es);
    if n == 0 {
      assert es[..n] == [];
    } else {
      FailuresUntilLocked(c, m, es[..n], k);
    }
  }

  // ---------- a locked key ----------

  /** What may happen while a key is locked: all but a failure, a reset or an eviction of it. */
  ghost predicate Bystander(c: Config, r: Rec, k: Key, e: Event)
    requires r.lockedAt.Some?
  {
    && e.op != Fail(k) && e.op != Reset(k) && k !in e.evicted
    && e.now < r.lockedAt.value + c.lockoutDur
    && (e.op == Allow(k) ==> e.now - r.updatedAt <= c.windowDur)
  }

  lemma LockedStep(c: Config, m: Attempts, e: Event, k: Key)
    requires k in m && m[k].lockedAt.Some? && Bystander(c, m[k], k, e)
    ensures k in After(c, m, e) && After(c, m, e)[k] == m[k]
    ensures e.op == Allow(k) ==> Reply(c, m, e) == Answer(false, m[k].lockedAt.value + c.lockoutDur - e.now)
    ensures e.op == Query(k) ==> Reply(c, m, e) == Answer(true, m[k].lockedAt.value + c.lockoutDur - e.now)
  {
  }

  /**
    While a key is locked, whatever else happens, each request and each query of it is answered with
    what remains of the lockout at that moment, and none of them prolongs or shortens it.
   */
  lemma {:induction false} LockHolds(c: Config, m: Attempts, es: seq<Event>, k: Key)
    requires k in m && m[k].lockedAt.Some?
    requires forall i :: 0 <= i < |es| ==> Bystander(c, m[k], k, es[i])
    ensures k in Final(c, m, es) && Final(c, m, es)[k] == m[k]
    ensures forall i :: 0 <= i < |es| && es[i].op == Allow(k) ==>
              Replies(c, m, es)[i] == Answer(false, m[k].lockedAt.value + c.lockoutDur - es[i].now)
    ensures forall i :: 0 <= i < |es| && es[i].op == Query(k) ==>
              Replies(c, m, es)[i] == Answer(true, m[k].lockedAt.value + c.lockoutDur - es[i].now)
    decreases |es|
  {
    if es != [] {
      LockedStep(c, m, es[0], k);
      assert forall i :: 0 <= i < |es| - 1 ==> es[1..][i] == es[i + 1];
      LockHolds(c, After(c, m, es[0]), es[1..], k);
    }
  }

  /** When the lockout is over, the next query finds the key free and the next request starts afresh. */
  lemma LockEnds(c: Config, m: Attempts, k: Key, now: Time, evicted: set<Key>)
    requires k in m && m[k].lockedAt.Some? && now >= m[k].lockedAt.value + c.lockoutDur
    ensures Reply(c, m, Event(Query(k), now, {})) == Answer(false, 0)
    ensures Lookup(After(c, m, Event(Query(k), now, {})), k) == None
    ensures Reply(c, m, Event(Allow(k), now, evicted)) == Answer(true, 0)
    ensures Lookup(After(c, m, Event(Allow(k), now, evicted)), k) == Some(Rec(1, None, now))
  {
  }

  // ---------- the sliding bound ----------

  /** How many of the times fall into the half-open interval [t, t + w). */
  function CountIn(h: seq<Time>, t: Time, w: int): nat {
    if h == [] then 0
    else CountIn(h[..|h| - 1], t, w) + if t <= h[|h| - 1] < t + w then 1 else 0
  }

  ghost predicate AtMost(h: seq<Time>, n: int, w: int) {
    forall t :: CountIn(h, t, w) <= n
  }

  ghost predicate Ascending(h: seq<Time>) {
    forall i, j :: 0 <= i < j < |h| ==> h[i] <= h[j]
  }

  /** Any n + 1 consecutive admissions span at least w. */
  ghost predicate Spread(h: seq<Time>, n: int, w: int) {
    forall i, j :: 0 <= i < j < |h| && j - i >= n ==> h[j] - h[i] >= w
  }

  lemma {:induction false} CountBounded(h: seq<Time>, t: Time, w: int, lo: nat)
    requires Ascending(h) && lo <= |h|
    requires forall i :: 0 <= i < lo ==> !(t <= h[i] < t + w)
    ensures CountIn(h, t, w) <= |h| - lo
  {
    if |h| > lo {
      CountBounded(h[..|h| - 1], t, w, lo);
    } else {
      CountZero(h, t, w);
    }
  }

  lemma {:induction false} CountZero(h: seq<Time>, t: Time, w: int)
    requires forall i :: 0 <= i < |h| ==> !(t <= h[i] < t + w)
    ensures CountIn(h, t, w) == 0
  {
    if h != [] {
      CountZero(h[..|h| - 1], t, w);
    }
  }

  lemma {:induction false} SpreadBounds(h: seq<Time>, n: int, w: int)
    requires n >= 1 && Ascending(h) && Spread(h, n, w)
    ensures AtMost(h, n, w)
  {
    forall t ensures CountIn(h, t, w) <= n {
      if h != [] {
        var last := h[|h| - 1];
        if t <= last < t + w {
          var lo := if |h| > n then |h| - n else 0;
          CountBounded(h, t, w, lo);
        } else {
          SpreadBounds(h[..|h| - 1], n, w);
          assert AtMost(h[..|h| - 1], n, w);
        }
      }
    }
  }

  /**
    The invariant of one key: `h` are the admissions so far, the last `cur` of them belong to the
    running window, and all earlier ones are at least a window older than its last update.
   */
  ghost predicate Inv(c: Config, h: seq<Time>, cur: nat, r: Option<Rec>, now: Time) {
    && Ascending(h) && Spread(h, c.maxAttempts, c.windowDur)
    && cur <= |h| && cur <= c.maxAttempts
    && (forall i :: 0 <= i < |h| ==> h[i] <= now)
    && match r
       case None => forall i :: 0 <= i < |h| ==> now - h[i] >= c.windowDur
       case Some(rec) =>
         && rec.updatedAt <= now
         && (forall i :: 0 <= i < |h| ==> h[i] <= rec.updatedAt)
         && (forall i :: 0 <= i < |h| - cur ==> rec.updatedAt - h[i] >= c.windowDur)
         && (rec.lockedAt.Some? ==>
               rec.lockedAt.value == rec.updatedAt && rec.failures >= c.maxAttempts)
         && (rec.lockedAt.None? ==> cur <= rec.failures)
  }

  /** The configuration under which the bound is promised. */
  predicate Bounding(c: Config) { c.maxAttempts >= 1 && c.lockoutDur >= c.windowDur }

  lemma AdmitFresh(c: Config, h: seq<Time>, now: Time)
    requires Bounding(c) && Ascending(h) && Spread(h, c.maxAttempts, c.windowDur)
    requires forall i :: 0 <= i < |h| ==> now - h[i] >= c.windowDur && h[i] <= now
    ensures Inv(c, h + [now], 1, Some(Fresh(now)), now)
  {
  }

  lemma AllowKeepsInv(c: Config, h: seq<Time>, cur: nat, r: Option<Rec>, was: Time, now: Time)
    returns (cur': nat)
    requires Bounding(c) && Inv(c, h, cur, r, was) && now >= was
    ensures var (r', a) := AllowRec(c, r, now);
            Inv(c, if a.yes then h + [now] else h, cur', Some(r'), now)
  {
    cur' := cur;
    if Stale(c, r, now) {
      AdmitFresh(c, h, now);
      cur' := 1;
    } else if r.value.lockedAt.Some? {
      if r.value.lockedAt.value + c.lockoutDur - now <= 0 {
        AdmitFresh(c, h, now);
        cur' := 1;
      }
    } else if r.value.failures + 1 <= c.maxAttempts {
      cur' := cur + 1;
    }
  }

  lemma FailKeepsInv(c: Config, h: seq<Time>, cur: nat, r: Option<Rec>, was: Time, now: Time)
    returns (cur': nat)
    requires Bounding(c) && Inv(c, h, cur, r, was) && now >= was
    ensures Inv(c, h, cur', Some(FailRec(c, r, now).0), now)
  {
    cur' := if Stale(c, r, now) then 0 else cur;
  }

  /** Dropping a record that has expired, or whose lock has, forgets nothing that matters. */
  lemma DropKeepsInv(c: Config, h: seq<Time>, cur: nat, r: Option<Rec>, was: Time, now: Time)
    requires Bounding(c) && Inv(c, h, cur, r, was) && now >= was
    requires r.None? || Stale(c, r, now)
          || (r.value.lockedAt.Some? && r.value.lockedAt.value + c.lockoutDur <= now)
    ensures Inv(c, h, cur, None, now)
  {
  }

  lemma IdleKeepsInv(c: Config, h: seq<Time>, cur: nat, r: Option<Rec>, was: Time, now: Time)
    requires Inv(c, h, cur, r, was) && now >= was
    ensures Inv(c, h, cur, r, now)
  {
  }

  /** An event that is neither Allow nor RecordFailure of `key` keeps its record or drops it expired. */
  lemma OtherEvent(c: Config, m: Attempts, e: Event, key: Key)
    requires Legal(c, m, e) && e.op != Allow(key) && e.op != Fail(key)
    requires e.op != Reset(key) && key !in e.evicted
    ensures var r, r' := Lookup(m, key), Lookup(After(c, m, e), key);
            r' == r || (r'.None? && (Expired(c, r.value, e.now) || Stale(c, r, e.now)
              || (r.value.lockedAt.Some? && r.value.lockedAt.value + c.lockoutDur <= e.now)))
  {
  }

  lemma EventKeepsInv(c: Config, m: Attempts, e: Event, key: Key, h: seq<Time>, cur: nat, was: Time)
    returns (cur': nat)
    requires Bounding(c) && Legal(c, m, e) && Inv(c, h, cur, Lookup(m, key), was) && e.now >= was
    requires e.op != Reset(key) && key !in e.evicted
    ensures Inv(c, h + AdmittedAt(c, m, e, key), cur', Lookup(After(c, m, e), key), e.now)
  {
    var r := Lookup(m, key);
    cur' := cur;
    assert h + [] == h;
    if e.op == Allow(key) {
      cur' := AllowKeepsInv(c, h, cur, r, was, e.now);
    } else if e.op == Fail(key) {
      cur' := FailKeepsInv(c, h, cur, r, was, e.now);
    } else {
      OtherEvent(c, m, e, key);
      if Lookup(After(c, m, e), key) == r {
        IdleKeepsInv(c, h, cur, r, was, e.now);
      } else {
        DropKeepsInv(c, h, cur, r, was, e.now);
      }
    }
  }

  lemma {:induction false} RunKeepsSpread(
    c: Config, m: Attempts, es: seq<Event>, key: Key, h: seq<Time>, cur: nat, was: Time)
    requires Bounding(c) && LegalRun(c, m, es) && Monotone(es, was) && Untouched(es, key)
    requires Inv(c, h, cur, Lookup(m, key), was)
    ensures AtMost(h + Admitted(c, m, es, key), c.maxAttempts, c.windowDur)
    decreases |es|
  {
    if es == [] {
      assert h + [] == h;
      SpreadBounds(h, c.maxAttempts, c.windowDur);
    } else {
      var e, rest := es[0], es[1..];
      assert es == [e] + rest;
      ConsRun(c, m, e, rest, was, key);
      var cur' := EventKeepsInv(c, m, e, key, h, cur, was);
      var now, later := AdmittedAt(c, m, e, key), Admitted(c, After(c, m, e), rest, key);
      RunKeepsSpread(c, After(c, m, e), rest, key, h + now, cur', e.now);
      AppendAssoc(h, now, later);
    }
  }

  /**
    The sliding bound: with maxAttempts >= 1 and lockoutDur >= windowDur, Allow lets a key through
    at most maxAttempts times in every half-open interval of length windowDur, whatever other
    keys, cleanups, IsLocked and RecordFailure calls are interleaved and whichever other keys are
    evicted.
   */
  lemma SlidingBound(c: Config, es: seq<Event>, key: Key, start: Time)
    requires Bounding(c) && LegalRun(c, map[], es) && Monotone(es, start) && Untouched(es, key)
    ensures AtMost(Admitted(c, map[], es, key), c.maxAttempts, c.windowDur)
  {
    RunKeepsSpread(c, map[], es, key, [], 0, start);
    assert [] + Admitted(c, map[], es, key) == Admitted(c, map[], es, key);
  }

  // ---------- and the configurations that break it ----------

  ghost predicate BoundHolds(c: Config) {
    forall es, key, start ::
      LegalRun(c, map[], es) && Monotone(es, start) && Untouched(es, key)
      ==> AtMost(Admitted(c, map[], es, key), c.maxAttempts, c.windowDur)
  }

  const KEY := "k"

  /** n calls of Allow for one key at time 0, then `tail`. */
  function Burst(n: nat, tail: seq<Event>): seq<Event> {
    if n == 0 then tail else [Event(Allow(KEY), 0, {})] + Burst(n - 1, tail)
  }

  function Zeros(n: nat): seq<Time> { if n == 0 then [] else [0] + Zeros(n - 1) }

  /** The map after f admitted calls of a burst. */
  function Burnt(f: nat): Attempts { if f == 0 then map[] else map[KEY := Rec(f, None, 0)] }

  lemma BurstStep(c: Config, f: nat)
    requires f < c.maxAttempts && c.windowDur >= 0 && c.maxEntries >= 1
    ensures var e := Event(Allow(KEY), 0, {});
            && Legal(c, Burnt(f), e) && After(c, Burnt(f), e) == Burnt(f + 1)
            && Reply(c, Burnt(f), e) == YES
  {
    assert Burnt(f)[KEY := Rec(f + 1, None, 0)] == Burnt(f + 1);
  }

  lemma BurstGrows(c: Config, f: nat, es: seq<Event>, times: seq<Time>)
    requires f < c.maxAttempts && c.windowDur >= 0 && c.maxEntries >= 1
    requires LegalRun(c, Burnt(f + 1), es) && Monotone(es, 0) && Untouched(es, KEY)
    requires Admitted(c, Burnt(f + 1), es, KEY) == times
    ensures var more := [Event(Allow(KEY), 0, {})] + es;
            && LegalRun(c, Burnt(f), more) && Monotone(more, 0) && Untouched(more, KEY)
            && Admitted(c, Burnt(f), more, KEY) == [0] + times
  {
    BurstStep(c, f);
    ConsRun(c, Burnt(f), Event(Allow(KEY), 0, {}), es, 0, KEY);
  }

  lemma {:induction false} BurstRun(
    c: Config, f: nat, g: nat, tail: seq<Event>, last: seq<Time>)
    requires f <= g <= c.maxAttempts && c.windowDur >= 0 && c.maxEntries >= 1
    requires LegalRun(c, Burnt(g), tail) && Monotone(tail, 0) && Untouched(tail, KEY)
    requires Admitted(c, Burnt(g), tail, KEY) == last
    ensures LegalRun(c, Burnt(f), Burst(g - f, tail)) && Monotone(Burst(g - f, tail), 0)
    ensures Untouched(Burst(g - f, tail), KEY)
    ensures Admitted(c, Burnt(f), Burst(g - f, tail), KEY) == Zeros(g - f) + last
    decreases g - f
  {
    if f == g {
      assert Zeros(0) + last == last;
    } else {
      BurstRun(c, f + 1, g, tail, last);
      var n := g - (f + 1);
      BurstGrows(c, f, Burst(n, tail), Zeros(n) + last);
      BurstUnfolds(n, tail, last);
      assert n + 1 == g - f;
    }
  }

  lemma BurstUnfolds(n: nat, tail: seq<Event>, last: seq<Time>)
    ensures Burst(n + 1, tail) == [Event(Allow(KEY), 0, {})] + Burst(n, tail)
    ensures Zeros(n + 1) + last == [0] + (Zeros(n) + last)
  {
    AppendAssoc([0], Zeros(n), last);
  }

  lemma {:induction false} CountZeros(n: nat, at: Time, w: int)
    requires 0 <= at < w
    ensures CountIn(Zeros(n) + [at], 0, w) == n + 1
  {
    CountOnlyZeros(n, w);
    var h := Zeros(n) + [at];
    assert h[..n] == Zeros(n);
  }

  lemma {:induction false} CountOnlyZeros(n: nat, w: int)
    requires w > 0
    ensures |Zeros(n)| == n && CountIn(Zeros(n), 0, w) == n
    ensures forall i :: 0 <= i < n ==> Zeros(n)[i] == 0
  {
    if n > 0 {
      CountOnlyZeros(n - 1, w);
      assert Zeros(n)[..n - 1] == Zeros(n - 1);
    }
  }

  /** The call that a short lockout lets through although the window is not over. */
  function EarlyCall(c: Config): seq<Event> {
    if c.maxAttempts < 1 then [Event(Allow(KEY), 0, {})]
    else [Event(Allow(KEY), 0, {}),
          Event(Allow(KEY), if c.lockoutDur > 0 then c.lockoutDur else 0, {})]
  }

  lemma EarlyCallAdmitted(c: Config)
    requires c.maxEntries >= 1 && c.windowDur > 0 && !Bounding(c)
    ensures var n := if c.maxAttempts < 1 then 0 else c.maxAttempts;
            var at := if c.maxAttempts < 1 || c.lockoutDur <= 0 then 0 else c.lockoutDur;
            && 0 <= at < c.windowDur
            && LegalRun(c, Burnt(n), EarlyCall(c)) && Monotone(EarlyCall(c), 0)
            && Untouched(EarlyCall(c), KEY)
            && Admitted(c, Burnt(n), EarlyCall(c), KEY) == [at]
  {
    var first := Event(Allow(KEY), 0, {});
    if c.maxAttempts < 1 {
      ConsRun(c, map[], first, [], 0, KEY);
      assert [first] + [] == EarlyCall(c);
    } else {
      var n := c.maxAttempts;
      var locked := map[KEY := Rec(n + 1, Some(0), 0)];
      assert Burnt(n)[KEY := Rec(n + 1, Some(0), 0)] == locked;
      assert After(c, Burnt(n), first) == locked && !Reply(c, Burnt(n), first).yes;
      var at := if c.lockoutDur <= 0 then 0 else c.lockoutDur;
      var second := Event(Allow(KEY), at, {});
      ConsRun(c, locked, second, [], 0, KEY);
      assert [second] + [] == [second];
      ConsRun(c, Burnt(n), first, [second], 0, KEY);
      assert [first] + [second] == EarlyCall(c);
    }
  }

  /**
    The sliding bound holds of a configuration with a positive window exactly when it allows at
    least one attempt and locks for at least a window. With a shorter lockout the burst that locked
    the key is followed by a further admission inside the same window.
   */
  lemma BoundIff(c: Config)
    requires c.maxEntries >= 1 && c.windowDur > 0
    ensures BoundHolds(c) <==> Bounding(c)
  {
    if Bounding(c) {
      forall es, key, start |
        LegalRun(c, map[], es) && Monotone(es, start) && Untouched(es, key)
        ensures AtMost(Admitted(c, map[], es, key), c.maxAttempts, c.windowDur)
      {
        SlidingBound(c, es, key, start);
      }
    } else {
      var n := if c.maxAttempts < 1 then 0 else c.maxAttempts;
      EarlyCallAdmitted(c);
      var at := Admitted(c, Burnt(n), EarlyCall(c), KEY)[0];
      var es := Burst(n, EarlyCall(c));
      if n == 0 {
        assert Zeros(0) + [at] == [at];
      } else {
        BurstRun(c, 0, n, EarlyCall(c), [at]);
      }
      CountZeros(n, at, c.windowDur);
      assert CountIn(Admitted(c, map[], es, KEY), 0, c.windowDur) == n + 1;
      assert !AtMost(Admitted(c, map[], es, KEY), c.maxAttempts, c.windowDur);
    }
  }
}
