/**
  Can background cleanup be seen from outside? Inserting a CleanupExpired call anywhere in a run
  that evicts nothing changes no answer, provided no lock falls on a key between the IsLocked that
  answered no and the RecordFailure it led to: so it is for logins of one key that do not overlap.
  For one given run the exact condition is at the end; for logins that overlap, and for arbitrary
  runs, the exact condition on the configuration is in LimiterLogins.
 */
module LimiterCleanup {
  import opened Prelude
  import opened Limiter
  import opened LimiterRuns

  /** What a key's record is worth at `now`: an expired one is worth nothing. */
  function View(c: Config, m: Attempts, k: Key, now: Time): Option<Rec> {
    if k in m && !Expired(c, m[k], now) then Some(m[k]) else None
  }

  ghost predicate Same(c: Config, a: Attempts, b: Attempts, now: Time) {
    forall k :: View(c, a, k, now) == View(c, b, k, now)
  }

  /** Every lock was set by the last update, and no update lies in the future. */
  ghost predicate Sane(c: Config, m: Attempts, now: Time) {
    forall k :: k in m ==>
      && m[k].updatedAt <= now
      && (m[k].lockedAt.Some? ==> m[k].lockedAt.value == m[k].updatedAt && m[k].failures >= c.maxAttempts)
  }

  ghost predicate Unlocked(m: Attempts, armed: set<Key>) {
    forall k :: k in armed && k in m ==> m[k].lockedAt.None?
  }

  // ---------- the discipline of the callers ----------

  /** The keys an IsLocked call has cleared and no call has locked since. */
  function Armed(c: Config, m: Attempts, e: Event, armed: set<Key>): set<Key> {
    match e.op
    case Query(k) => if Reply(c, m, e).yes then armed - {k} else armed + {k}
    case Allow(k) => if Reply(c, m, e).yes then armed else armed - {k}
    case Fail(k) => if Reply(c, m, e).yes then armed - {k} else armed
    case _ => armed
  }

  /** Every failure is recorded for a key that has not been locked since it was cleared. */
  ghost predicate Disciplined(c: Config, m: Attempts, es: seq<Event>, armed: set<Key>)
    decreases |es|
  {
    es != [] ==>
      && (es[0].op.Fail? ==> es[0].op.key in armed)
      && Disciplined(c, After(c, m, es[0]), es[1..], Armed(c, m, es[0], armed))
  }

  /** The logins of one key one after the other: each failure uses up the key's only clearance. */
  function Pending(c: Config, m: Attempts, e: Event, pending: set<Key>): set<Key> {
    match e.op
    case Query(k) => if Reply(c, m, e).yes then pending - {k} else pending + {k}
    case Allow(k) => pending - {k}
    case Fail(k) => pending - {k}
    case _ => pending
  }

  ghost predicate OneAtATime(c: Config, m: Attempts, es: seq<Event>, pending: set<Key>)
    decreases |es|
  {
    es != [] ==>
      && (es[0].op.Fail? ==> es[0].op.key in pending)
      && OneAtATime(c, After(c, m, es[0]), es[1..], Pending(c, m, es[0], pending))
  }

  lemma {:induction false} OneAtATimeIsDisciplined(
    c: Config, m: Attempts, es: seq<Event>, pending: set<Key>, armed: set<Key>)
    requires OneAtATime(c, m, es, pending) && pending <= armed
    ensures Disciplined(c, m, es, armed)
    decreases |es|
  {
    if es != [] {
      OneAtATimeIsDisciplined(c, After(c, m, es[0]), es[1..],
                              Pending(c, m, es[0], pending), Armed(c, m, es[0], armed));
    }
  }

  /** Logins of one key side by side: the clearances that no failure has used up yet. */
  function Outstanding(c: Config, m: Attempts, e: Event, out: multiset<Key>): multiset<Key> {
    match e.op
    case Query(k) => if Reply(c, m, e).yes then out else out + multiset{k}
    case Fail(k) => out - multiset{k}
    case _ => out
  }

  /** Every failure is the outcome of a login of its own that an earlier IsLocked cleared. */
  ghost predicate Overlapping(c: Config, m: Attempts, es: seq<Event>, out: multiset<Key>)
    decreases |es|
  {
    es != [] ==>
      && (es[0].op.Fail? ==> es[0].op.key in out)
      && Overlapping(c, After(c, m, es[0]), es[1..], Outstanding(c, m, es[0], out))
  }

  /** The configurations in which a lock can expire before its window does. */
  predicate ShortLock(c: Config) { 0 <= c.windowDur && c.lockoutDur < c.windowDur }

  /** A failure is recorded on no record whose lock ran out while its window is still open. */
  predicate Safe(c: Config, m: Attempts, e: Event) {
    (e.op.Fail? && e.op.key in m && Expired(c, m[e.op.key], e.now)) ==>
      Stale(c, Lookup(m, e.op.key), e.now)
  }

  lemma IsSafe(c: Config, m: Attempts, e: Event, armed: set<Key>)
    requires Sane(c, m, e.now) && Unlocked(m, armed)
    requires ShortLock(c) ==> (e.op.Fail? ==> e.op.key in armed)
    ensures Safe(c, m, e)
  {
  }

  // ---------- one event ----------

  lemma SameLater(c: Config, a: Attempts, b: Attempts, was: Time, now: Time)
    requires Same(c, a, b, was) && was <= now
    ensures Same(c, a, b, now)
  {
    forall k ensures View(c, a, k, now) == View(c, b, k, now) {
      assert View(c, a, k, was) == View(c, b, k, was);
    }
  }

  lemma CleanIsSame(c: Config, m: Attempts, now: Time)
    ensures Same(c, m, Clean(c, m, now), now)
  {
  }

  lemma SameClean(c: Config, a: Attempts, b: Attempts, now: Time)
    requires Same(c, a, b, now)
    ensures Clean(c, a, now) == Clean(c, b, now)
  {
    forall k ensures k in Clean(c, a, now) <==> k in Clean(c, b, now) {
      assert View(c, a, k, now) == View(c, b, k, now);
    }
    forall k | k in Clean(c, a, now) ensures a[k] == b[k] {
      assert View(c, a, k, now) == View(c, b, k, now);
    }
  }

  /** Being too full is a matter of unexpired records only. */
  lemma CrowdedIsSeen(c: Config, m: Attempts, now: Time)
    ensures Crowded(c, m, now) <==> |Clean(c, m, now)| >= c.maxEntries
  {
    SmallerMap(Clean(c, m, now), m);
  }

  /** An insertion that needs no eviction needs none either when only expired records differ. */
  lemma SameQuiet(c: Config, a: Attempts, b: Attempts, e: Event)
    requires Same(c, a, b, e.now) && |a| <= c.maxEntries && c.maxEntries >= 1
    requires Legal(c, a, e) && e.evicted == {}
    ensures Legal(c, b, e)
  {
    SameClean(c, a, b, e.now);
    CrowdedIsSeen(c, a, e.now);
    CrowdedIsSeen(c, b, e.now);
    if Inserts(c, b, e) && Crowded(c, b, e.now) {
      var k := e.op.key;
      assert View(c, a, k, e.now) == View(c, b, k, e.now);
      if k in a && Expired(c, a[k], e.now) {
        SmallerMap(Clean(c, a, e.now), a - {k});
        RemoveOne(a, k);
      }
    }
  }

  /** The capacity bound, kept by every legal event. */
  lemma FitsAfter(c: Config, m: Attempts, e: Event)
    requires |m| <= c.maxEntries && c.maxEntries >= 1 && Legal(c, m, e)
    ensures |After(c, m, e)| <= c.maxEntries
  {
    match e.op {
      case Cleanup => SmallerMap(Clean(c, m, e.now), m);
      case Reset(k) => SmallerMap(m - {k}, m);
      case Query(k) => SmallerMap(m - {k}, m);
      case Allow(k) => InsertFits(c, m, e, AllowRec(c, Lookup(m, k), e.now).0);
      case Fail(k) => InsertFits(c, m, e, FailRec(c, Lookup(m, k), e.now).0);
    }
  }

  lemma InsertFits(c: Config, m: Attempts, e: Event, r: Rec)
    requires |m| <= c.maxEntries && c.maxEntries >= 1 && Legal(c, m, e) && (e.op.Allow? || e.op.Fail?)
    ensures var room := if Inserts(c, m, e) then Roomy(c, m, e.now, e.evicted) else m;
            |room[e.op.key := r]| <= c.maxEntries
  {
    if Inserts(c, m, e) {
      RoomyFits(c, m, e.now, e.evicted);
      InsertOne(Roomy(c, m, e.now, e.evicted), e.op.key, r);
    } else {
      InsertOne(m, e.op.key, r);
    }
  }

  lemma RoomyFits(c: Config, m: Attempts, now: Time, evicted: set<Key>)
    requires |m| <= c.maxEntries && c.maxEntries >= 1 && MayEvict(c, m, now, evicted)
    ensures |Roomy(c, m, now, evicted)| < c.maxEntries
  {
    var clean := Clean(c, m, now);
    SmallerMap(clean, m);
    if Crowded(c, m, now) {
      assert (clean - evicted).Keys == clean.Keys - evicted;
      assert |clean.Keys| == |clean.Keys - evicted| + |evicted| by {
        assert clean.Keys == (clean.Keys - evicted) + evicted;
      }
    } else {
      assert clean - evicted == clean;
    }
  }

  /** Answers and next records depend on what the record is worth, not on whether it was swept. */
  lemma RecSeen(c: Config, m: Attempts, k: Key, now: Time)
    ensures AllowRec(c, Lookup(m, k), now) == AllowRec(c, View(c, m, k, now), now)
    ensures Safe(c, m, Event(Fail(k), now, {})) ==>
              FailRec(c, Lookup(m, k), now) == FailRec(c, View(c, m, k, now), now)
    ensures QueryRec(c, Lookup(m, k), now) == QueryRec(c, View(c, m, k, now), now)
  {
  }

  lemma OtherKeysSeen(c: Config, m: Attempts, e: Event, k: Key)
    requires e.evicted == {} && (e.op.Cleanup? || k != e.op.key)
    ensures View(c, After(c, m, e), k, e.now) == View(c, m, k, e.now)
  {
  }

  lemma OwnKeySeen(c: Config, m: Attempts, e: Event)
    requires e.evicted == {} && !e.op.Cleanup? && Safe(c, m, e)
    ensures var k, now := e.op.key, e.now;
            var v := View(c, m, k, now);
            && Reply(c, m, e) == Reply(c, if v.Some? then map[k := v.value] else map[], e)
            && View(c, After(c, m, e), k, now)
               == View(c, After(c, if v.Some? then map[k := v.value] else map[], e), k, now)
  {
    RecSeen(c, m, e.op.key, e.now);
  }

  /** One event: two maps worth the same give the same answer and stay worth the same. */
  lemma SameAfter(c: Config, a: Attempts, b: Attempts, e: Event)
    requires Same(c, a, b, e.now) && e.evicted == {} && Safe(c, a, e) && Safe(c, b, e)
    ensures Reply(c, a, e) == Reply(c, b, e)
    ensures Same(c, After(c, a, e), After(c, b, e), e.now)
  {
    if !e.op.Cleanup? {
      assert View(c, a, e.op.key, e.now) == View(c, b, e.op.key, e.now);
      OwnKeySeen(c, a, e);
      OwnKeySeen(c, b, e);
    }
    forall k ensures View(c, After(c, a, e), k, e.now) == View(c, After(c, b, e), k, e.now) {
      if e.op.Cleanup? || k != e.op.key {
        OtherKeysSeen(c, a, e, k);
        OtherKeysSeen(c, b, e, k);
        assert View(c, a, k, e.now) == View(c, b, k, e.now);
      }
    }
  }

  lemma SaneAfter(c: Config, m: Attempts, e: Event, was: Time)
    requires Sane(c, m, was) && was <= e.now && e.evicted == {}
    ensures Sane(c, After(c, m, e), e.now)
  {
  }

  lemma UnlockedAfter(c: Config, m: Attempts, e: Event, armed: set<Key>)
    requires Unlocked(m, armed) && e.evicted == {}
    ensures Unlocked(After(c, m, e), Armed(c, m, e, armed))
  {
  }

  // ---------- whole runs ----------

  lemma {:induction false} ConsLogins(c: Config, m: Attempts, e: Event, es: seq<Event>, out: multiset<Key>)
    ensures Overlapping(c, m, [e] + es, out) <==>
              (e.op.Fail? ==> e.op.key in out)
              && Overlapping(c, After(c, m, e), es, Outstanding(c, m, e, out))
    ensures Below(c, m, [e] + es) <==>
              e.evicted == {} && (Inserts(c, m, e) ==> |m| < c.maxEntries) && Below(c, After(c, m, e), es)
  {
    assert ([e] + es)[1..] == es;
  }

  ghost predicate Quiet(es: seq<Event>) {
    forall i :: 0 <= i < |es| ==> es[i].evicted == {}
  }

  lemma SameEvent(c: Config, a: Attempts, b: Attempts, e: Event, armed: set<Key>, was: Time)
    requires Same(c, a, b, was) && was <= e.now && Legal(c, a, e) && e.evicted == {}
    requires |a| <= c.maxEntries && c.maxEntries >= 1
    requires Sane(c, a, was) && Sane(c, b, was) && Unlocked(a, armed) && Unlocked(b, armed)
    requires ShortLock(c) ==> (e.op.Fail? ==> e.op.key in armed)
    ensures Legal(c, b, e) && Reply(c, b, e) == Reply(c, a, e)
    ensures Same(c, After(c, a, e), After(c, b, e), e.now) && |After(c, a, e)| <= c.maxEntries
    ensures Sane(c, After(c, a, e), e.now) && Sane(c, After(c, b, e), e.now)
    ensures Unlocked(After(c, a, e), Armed(c, a, e, armed))
    ensures Unlocked(After(c, b, e), Armed(c, a, e, armed))
  {
    SameLater(c, a, b, was, e.now);
    assert Safe(c, a, e) && Safe(c, b, e) by {
      IsSafe(c, a, e, armed);
      IsSafe(c, b, e, armed);
    }
    SameQuiet(c, a, b, e);
    SameAfter(c, a, b, e);
    FitsAfter(c, a, e);
    SaneAfter(c, a, e, was);
    SaneAfter(c, b, e, was);
    UnlockedAfter(c, a, e, armed);
    UnlockedAfter(c, b, e, armed);
    ArmedByReply(c, a, b, e, armed);
  }

  lemma ArmedByReply(c: Config, a: Attempts, b: Attempts, e: Event, armed: set<Key>)
    requires Reply(c, a, e) == Reply(c, b, e)
    ensures Armed(c, a, e, armed) == Armed(c, b, e, armed)
  {
  }

  lemma {:induction false} SameRun(
    c: Config, a: Attempts, b: Attempts, es: seq<Event>, armed: set<Key>, was: Time)
    requires Same(c, a, b, was) && Monotone(es, was) && LegalRun(c, a, es) && Quiet(es)
    requires |a| <= c.maxEntries && c.maxEntries >= 1
    requires Sane(c, a, was) && Sane(c, b, was) && Unlocked(a, armed) && Unlocked(b, armed)
    requires ShortLock(c) ==> Disciplined(c, a, es, armed)
    ensures LegalRun(c, b, es) && Replies(c, b, es) == Replies(c, a, es)
    decreases |es|
  {
    if es != [] {
      var e := es[0];
      SameEvent(c, a, b, e, armed, was);
      SameRun(c, After(c, a, e), After(c, b, e), es[1..], Armed(c, a, e, armed), e.now);
    }
  }

  /** A call of CleanupExpired. */
  function Sweep(at: Time): Event { Event(Cleanup, at, {}) }

  /** What the theorem asks of a state in the middle of a run. */
  ghost predicate Ready(c: Config, m: Attempts, es: seq<Event>, armed: set<Key>, was: Time) {
    && LegalRun(c, m, es) && Quiet(es)
    && |m| <= c.maxEntries && c.maxEntries >= 1 && Sane(c, m, was) && Unlocked(m, armed)
    && (ShortLock(c) ==> Disciplined(c, m, es, armed))
  }

  lemma ReadyAfter(c: Config, m: Attempts, e: Event, es: seq<Event>, armed: set<Key>, was: Time)
    requires Ready(c, m, [e] + es, armed, was) && was <= e.now
    ensures Legal(c, m, e) && e.evicted == {}
    ensures Ready(c, After(c, m, e), es, Armed(c, m, e, armed), e.now)
  {
    var run := [e] + es;
    assert run[0] == e && run[1..] == es;
    assert forall i :: 0 <= i < |es| ==> run[i + 1] == es[i];
    FitsAfter(c, m, e);
    SaneAfter(c, m, e, was);
    UnlockedAfter(c, m, e, armed);
  }

  lemma CleanupNow(c: Config, m: Attempts, es: seq<Event>, at: Time, armed: set<Key>, was: Time)
    requires Ready(c, m, es, armed, was) && was <= at && Monotone(es, at)
    ensures LegalRun(c, Clean(c, m, at), es)
    ensures Replies(c, Clean(c, m, at), es) == Replies(c, m, es)
  {
    CleanIsSame(c, m, at);
    SameRun(c, m, Clean(c, m, at), es, armed, at);
  }

  lemma SweptFirst(c: Config, m: Attempts, es: seq<Event>, at: Time, was: Time)
    ensures Inserted(es, 0, Sweep(at)) == [Sweep(at)] + es
    ensures Monotone(Inserted(es, 0, Sweep(at)), was) <==> was <= at && Monotone(es, at)
    ensures LegalRun(c, m, Inserted(es, 0, Sweep(at))) <==> LegalRun(c, Clean(c, m, at), es)
    ensures Replies(c, m, Inserted(es, 0, Sweep(at))) == [NO] + Replies(c, Clean(c, m, at), es)
    ensures Inserted(Replies(c, m, es), 0, NO) == [NO] + Replies(c, m, es)
  {
    InsertedAtOnce(es, Sweep(at));
    InsertedAtOnce(Replies(c, m, es), NO);
    ConsRun(c, m, Sweep(at), es, was, KEY);
    ConsReplies(c, m, Sweep(at), es);
  }

  lemma {:induction false} CleanupRun(
    c: Config, m: Attempts, es: seq<Event>, i: nat, at: Time, armed: set<Key>, was: Time)
    requires i <= |es| && Monotone(Inserted(es, i, Sweep(at)), was) && Ready(c, m, es, armed, was)
    ensures LegalRun(c, m, Inserted(es, i, Sweep(at)))
    ensures Replies(c, m, Inserted(es, i, Sweep(at))) == Inserted(Replies(c, m, es), i, NO)
    decreases i
  {
    if i == 0 {
      SweptFirst(c, m, es, at, was);
      CleanupNow(c, m, es, at, armed, was);
    } else {
      var e, rest := es[0], es[1..];
      assert es == [e] + rest;
      InsertedLater(e, rest, i, Sweep(at));
      ConsRun(c, m, e, Inserted(rest, i - 1, Sweep(at)), was, KEY);
      ReadyAfter(c, m, e, rest, armed, was);
      CleanupRun(c, After(c, m, e), rest, i - 1, at, Armed(c, m, e, armed), e.now);
      RepliesLater(c, m, e, rest, i, at);
    }
  }

  lemma RepliesLater(c: Config, m: Attempts, e: Event, rest: seq<Event>, i: nat, at: Time)
    requires 0 < i <= |rest| + 1
    requires var m' := After(c, m, e);
             Replies(c, m', Inserted(rest, i - 1, Sweep(at))) == Inserted(Replies(c, m', rest), i - 1, NO)
    ensures Replies(c, m, Inserted([e] + rest, i, Sweep(at))) == Inserted(Replies(c, m, [e] + rest), i, NO)
  {
    InsertedLater(e, rest, i, Sweep(at));
    ConsReplies(c, m, e, Inserted(rest, i - 1, Sweep(at)));
    ConsReplies(c, m, e, rest);
    InsertedLater(Reply(c, m, e), Replies(c, After(c, m, e), rest), i, NO);
  }

  /** A cleanup put in before event `i` changes no answer of the run. */
  ghost predicate Unnoticed(c: Config, m: Attempts, es: seq<Event>, i: nat, at: Time)
    requires i <= |es|
  {
    && LegalRun(c, m, Inserted(es, i, Sweep(at)))
    && Replies(c, m, Inserted(es, i, Sweep(at))) == Inserted(Replies(c, m, es), i, NO)
  }

  /** Nor does one put in anywhere else. */
  ghost predicate Unobservable(c: Config, m: Attempts, es: seq<Event>, start: Time) {
    forall i: nat, at :: i <= |es| && Monotone(Inserted(es, i, Sweep(at)), start) ==>
      Unnoticed(c, m, es, i, at)
  }

  /**
    Cleanup is unobservable: in every run that evicts nothing and records no failure for a key
    locked since its clearing, a cleanup inserted anywhere changes no answer. Logins of one key
    that do not overlap are such a run.
   */
  lemma CleanupUnobservable(c: Config, es: seq<Event>, start: Time)
    requires c.maxEntries >= 1 && LegalRun(c, map[], es) && Quiet(es)
    requires Disciplined(c, map[], es, {}) || OneAtATime(c, map[], es, {})
    ensures Unobservable(c, map[], es, start)
  {
    if OneAtATime(c, map[], es, {}) {
      OneAtATimeIsDisciplined(c, map[], es, {}, {});
    }
    ReadyIsUnobservable(c, es, start);
  }

  lemma ReadyIsUnobservable(c: Config, es: seq<Event>, start: Time)
    requires Ready(c, map[], es, {}, start)
    ensures Unobservable(c, map[], es, start)
  {
    forall i: nat, at | i <= |es| && Monotone(Inserted(es, i, Sweep(at)), start)
      ensures Unnoticed(c, map[], es, i, at)
    {
      CleanupRun(c, map[], es, i, at, {}, start);
    }
  }

  // ---------- one given run ----------

  /** Every failure of the run is recorded on no record whose lock ran out inside its window. */
  ghost predicate AllSafe(c: Config, m: Attempts, es: seq<Event>)
    decreases |es|
  {
    es != [] ==> Safe(c, m, es[0]) && AllSafe(c, After(c, m, es[0]), es[1..])
  }

  /** The capacity bound is not reached, so that no insertion cleans the map by itself. */
  ghost predicate Below(c: Config, m: Attempts, es: seq<Event>)
    decreases |es|
  {
    es != [] ==>
      && es[0].evicted == {} && (Inserts(c, m, es[0]) ==> |m| < c.maxEntries)
      && Below(c, After(c, m, es[0]), es[1..])
  }

  lemma {:induction false} BelowIsQuiet(c: Config, m: Attempts, es: seq<Event>)
    requires Below(c, m, es)
    ensures Quiet(es) && LegalRun(c, m, es)
    decreases |es|
  {
    if es != [] {
      BelowIsQuiet(c, After(c, m, es[0]), es[1..]);
      assert forall i :: 0 < i < |es| ==> es[i] == es[1..][i - 1];
    }
  }

  /** `b` is `a` without some expired records. */
  ghost predicate Thinner(c: Config, b: Attempts, a: Attempts, now: Time) {
    && b.Keys <= a.Keys && (forall k :: k in b ==> b[k] == a[k])
    && forall k :: k in a && k !in b ==> Expired(c, a[k], now)
  }

  /** What one key holds in the two maps. */
  ghost predicate ThinnerAt(c: Config, b: Attempts, a: Attempts, k: Key, now: Time) {
    Lookup(b, k) == Lookup(a, k) || (k !in b && k in a && Expired(c, a[k], now))
  }

  lemma ThinnerOther(c: Config, a: Attempts, b: Attempts, e: Event, k: Key)
    requires ThinnerAt(c, b, a, k, e.now) && e.evicted == {} && (e.op.Cleanup? || k != e.op.key)
    requires Inserts(c, a, e) ==> |a| < c.maxEntries
    requires Inserts(c, b, e) ==> |b| < c.maxEntries
    ensures ThinnerAt(c, After(c, b, e), After(c, a, e), k, e.now)
  {
  }

  lemma ThinnerOwn(c: Config, a: Attempts, b: Attempts, e: Event)
    requires !e.op.Cleanup? && ThinnerAt(c, b, a, e.op.key, e.now) && Safe(c, a, e)
    ensures Reply(c, b, e) == Reply(c, a, e)
    ensures ThinnerAt(c, After(c, b, e), After(c, a, e), e.op.key, e.now)
    ensures Inserts(c, b, e) && !Inserts(c, a, e) ==> e.op.key in a && e.op.key !in b
  {
    RecSeen(c, a, e.op.key, e.now);
    RecSeen(c, b, e.op.key, e.now);
  }

  lemma FewerRecords(b: Attempts, a: Attempts, k: Key)
    requires b.Keys <= a.Keys
    ensures |b| <= |a|
    ensures k in a && k !in b ==> |b| < |a|
  {
    SmallerMap(b, a);
    if k in a && k !in b {
      RemoveOne(a, k);
      SmallerMap(b, a - {k});
    }
  }

  lemma ThinnerAfter(c: Config, a: Attempts, b: Attempts, e: Event, was: Time)
    requires Thinner(c, b, a, was) && was <= e.now && Safe(c, a, e) && |a| <= c.maxEntries
    requires e.evicted == {} && (Inserts(c, a, e) ==> |a| < c.maxEntries)
    ensures Legal(c, b, e) && Reply(c, b, e) == Reply(c, a, e)
    ensures Thinner(c, After(c, b, e), After(c, a, e), e.now)
  {
    if !e.op.Cleanup? {
      ThinnerOwn(c, a, b, e);
      FewerRecords(b, a, e.op.key);
    }
    forall k ensures ThinnerAt(c, After(c, b, e), After(c, a, e), k, e.now) {
      if e.op.Cleanup? || k != e.op.key { ThinnerOther(c, a, b, e, k); }
    }
    ThinnerByKey(c, After(c, b, e), After(c, a, e), e.now);
  }

  lemma ThinnerByKey(c: Config, b: Attempts, a: Attempts, now: Time)
    requires forall k :: ThinnerAt(c, b, a, k, now)
    ensures Thinner(c, b, a, now)
  {
    assert forall k :: k in b ==> ThinnerAt(c, b, a, k, now);
    assert forall k :: k in a ==> ThinnerAt(c, b, a, k, now);
  }

  lemma {:induction false} ThinnerRun(c: Config, a: Attempts, b: Attempts, es: seq<Event>, was: Time)
    requires Thinner(c, b, a, was) && Monotone(es, was) && Below(c, a, es) && AllSafe(c, a, es)
    requires c.maxEntries >= 1 && |a| <= c.maxEntries
    ensures LegalRun(c, b, es) && Replies(c, b, es) == Replies(c, a, es)
    decreases |es|
  {
    if es != [] {
      ThinnerAfter(c, a, b, es[0], was);
      BelowIsQuiet(c, a, es);
      FitsAfter(c, a, es[0]);
      ThinnerRun(c, After(c, a, es[0]), After(c, b, es[0]), es[1..], es[0].now);
    }
  }

  lemma {:induction false} SafeRun(
    c: Config, m: Attempts, es: seq<Event>, i: nat, at: Time, was: Time)
    requires i <= |es| && Monotone(Inserted(es, i, Sweep(at)), was)
    requires Below(c, m, es) && AllSafe(c, m, es) && c.maxEntries >= 1 && |m| <= c.maxEntries
    ensures LegalRun(c, m, Inserted(es, i, Sweep(at)))
    ensures Replies(c, m, Inserted(es, i, Sweep(at))) == Inserted(Replies(c, m, es), i, NO)
    decreases i
  {
    if i == 0 {
      SweptFirst(c, m, es, at, was);
      ThinnerRun(c, m, Clean(c, m, at), es, at);
    } else {
      var e, rest := es[0], es[1..];
      assert es == [e] + rest;
      InsertedLater(e, rest, i, Sweep(at));
      ConsRun(c, m, e, Inserted(rest, i - 1, Sweep(at)), was, KEY);
      BelowIsQuiet(c, m, es);
      FitsAfter(c, m, e);
      SafeRun(c, After(c, m, e), rest, i - 1, at, e.now);
      RepliesLater(c, m, e, rest, i, at);
    }
  }

  /** A sweep just before an unsafe failure turns the lock it reports into a first failure. */
  lemma {:induction false} UnsafeSwept(c: Config, m: Attempts, es: seq<Event>, was: Time)
    requires es != [] && Monotone(es, was) && Sane(c, m, was) && !Safe(c, m, es[0])
    ensures Monotone(Inserted(es, 0, Sweep(es[0].now)), was)
    ensures Replies(c, m, Inserted(es, 0, Sweep(es[0].now))) != Inserted(Replies(c, m, es), 0, NO)
  {
    var e := es[0];
    SweptFirst(c, m, es, e.now, was);
    assert Reply(c, m, e).yes && Reply(c, Clean(c, m, e.now), e) == NO;
    assert ([NO] + Replies(c, m, es))[1] == Reply(c, m, e);
  }

  lemma {:induction false} UnsafeIsSeen(c: Config, m: Attempts, es: seq<Event>, was: Time)
    returns (i: nat, at: Time)
    requires Monotone(es, was) && Quiet(es) && Sane(c, m, was) && !AllSafe(c, m, es)
    ensures i <= |es| && Monotone(Inserted(es, i, Sweep(at)), was)
    ensures Replies(c, m, Inserted(es, i, Sweep(at))) != Inserted(Replies(c, m, es), i, NO)
    decreases |es|
  {
    var e, rest := es[0], es[1..];
    if !Safe(c, m, e) {
      i, at := 0, e.now;
      UnsafeSwept(c, m, es, was);
    } else {
      assert es == [e] + rest;
      assert forall j :: 0 <= j < |rest| ==> rest[j] == es[j + 1];
      SaneAfter(c, m, e, was);
      i, at := UnsafeIsSeen(c, After(c, m, e), rest, e.now);
      var inner := Inserted(rest, i, Sweep(at));
      InsertedLater(e, rest, i + 1, Sweep(at));
      ConsRun(c, m, e, inner, was, KEY);
      ConsReplies(c, m, e, inner);
      ConsReplies(c, m, e, rest);
      var answers := Replies(c, After(c, m, e), rest);
      InsertedLater(Reply(c, m, e), answers, i + 1, NO);
      if [Reply(c, m, e)] + Replies(c, After(c, m, e), inner)
         == [Reply(c, m, e)] + Inserted(answers, i, NO) {
        SamePrefix([Reply(c, m, e)], [Reply(c, m, e)],
                   Replies(c, After(c, m, e), inner), Inserted(answers, i, NO));
      }
      i := i + 1;
    }
  }

  /**
    The exact condition for one run below the capacity bound, whoever issues its calls: cleanup is
    unobservable in it if and only if no RecordFailure meets a record whose lock has run out while
    its window is still open.
   */
  lemma RunIff(c: Config, es: seq<Event>, start: Time)
    requires c.maxEntries >= 1 && Monotone(es, start) && Below(c, map[], es)
    ensures Unobservable(c, map[], es, start) <==> AllSafe(c, map[], es)
  {
    BelowIsQuiet(c, map[], es);
    if AllSafe(c, map[], es) {
      forall i: nat, at | i <= |es| && Monotone(Inserted(es, i, Sweep(at)), start)
        ensures Unnoticed(c, map[], es, i, at)
      {
        SafeRun(c, map[], es, i, at, start);
      }
    } else {
      var i, at := UnsafeIsSeen(c, map[], es, start);
      assert !Unnoticed(c, map[], es, i, at);
    }
  }
}
