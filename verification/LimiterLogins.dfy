/**
  For which configurations background cleanup is unobservable in every run, and in every run of a
  login handler whose logins of one key overlap: the same condition is exact for both. A concrete
  run of three logins closes the module.
 */
module LimiterLogins {
  import opened Prelude
  import opened Limiter
  import opened LimiterRuns
  import opened LimiterCleanup

  /** For all runs, and for those of a login handler whose logins overlap. */
  ghost predicate CleanupInvisible(c: Config) {
    forall es, start :: LegalRun(c, map[], es) && Quiet(es) ==> Unobservable(c, map[], es, start)
  }

  ghost predicate InvisibleToLogins(c: Config) {
    forall es, start ::
      LegalRun(c, map[], es) && Quiet(es) && Overlapping(c, map[], es, multiset{})
      ==> Unobservable(c, map[], es, start)
  }

  const QUERY := Event(Query(KEY), 0, {})
  const FAILURE := Event(Fail(KEY), 0, {})

  /** The map after f failures of one key at time 0. */
  function Counted(c: Config, f: nat): Attempts {
    if f == 0 then map[]
    else map[KEY := Rec(f, if f >= 2 && f >= c.maxAttempts then Some(0) else None, 0)]
  }

  /** How many failures lock a key. */
  function Enough(c: Config): nat { if c.maxAttempts > 2 then c.maxAttempts else 2 }

  /** A run of logins in which cleanup shows. */
  ghost predicate Telling(c: Config, m: Attempts, es: seq<Event>, out: multiset<Key>) {
    && LegalRun(c, m, es) && Quiet(es) && Monotone(es, 0)
    && Overlapping(c, m, es, out) && !AllSafe(c, m, es)
  }

  lemma {:induction false} TellingLater(
    c: Config, m: Attempts, e: Event, es: seq<Event>, out: multiset<Key>)
    requires Legal(c, m, e) && e.evicted == {} && e.now == 0 && (e.op.Fail? ==> e.op.key in out)
    requires Telling(c, After(c, m, e), es, Outstanding(c, m, e, out))
    ensures Telling(c, m, [e] + es, out)
  {
    ConsRun(c, m, e, es, 0, KEY);
    ConsLogins(c, m, e, es, out);
    var run := [e] + es;
    assert run[0] == e && run[1..] == es;
    assert forall i :: 0 < i < |run| ==> run[i] == es[i - 1];
  }

  /** The late failure is recorded on a lock that has run out inside its window. */
  lemma {:induction false} LateTells(c: Config, at: Time)
    requires ShortLock(c) && c.maxEntries >= 1 && at >= 0 && c.lockoutDur < at <= c.windowDur
    ensures Telling(c, Counted(c, Enough(c)), [Event(Fail(KEY), at, {})], multiset{KEY})
  {
    var es := [Event(Fail(KEY), at, {})];
    assert es[1..] == [];
  }

  /** k logins that fail at once, then the rest of the run. */
  function Rounds(k: nat, tail: seq<Event>): seq<Event> {
    if k == 0 then tail else [QUERY] + ([FAILURE] + Rounds(k - 1, tail))
  }

  lemma RoundStep(c: Config, f: nat)
    requires f < Enough(c) && c.windowDur >= 0 && c.maxEntries >= 1
    ensures After(c, Counted(c, f), QUERY) == Counted(c, f) && !Reply(c, Counted(c, f), QUERY).yes
    ensures Legal(c, Counted(c, f), QUERY) && Legal(c, Counted(c, f), FAILURE)
    ensures After(c, Counted(c, f), FAILURE) == Counted(c, f + 1)
  {
  }

  lemma OneRound(c: Config, f: nat, rest: seq<Event>)
    requires f < Enough(c) && c.windowDur >= 0 && c.maxEntries >= 1
    requires Telling(c, Counted(c, f + 1), rest, multiset{KEY})
    ensures Telling(c, Counted(c, f), [QUERY] + ([FAILURE] + rest), multiset{KEY})
  {
    var two := multiset{KEY} + multiset{KEY};
    assert two - multiset{KEY} == multiset{KEY} && KEY in two;
    RoundStep(c, f);
    TellingLater(c, Counted(c, f), FAILURE, rest, two);
    TellingLater(c, Counted(c, f), QUERY, [FAILURE] + rest, multiset{KEY});
  }

  lemma {:induction false} RoundsTell(c: Config, f: nat, tail: seq<Event>)
    requires f <= Enough(c) && c.windowDur >= 0 && c.maxEntries >= 1
    requires Telling(c, Counted(c, Enough(c)), tail, multiset{KEY})
    ensures Telling(c, Counted(c, f), Rounds(Enough(c) - f, tail), multiset{KEY})
    decreases Enough(c) - f
  {
    if f < Enough(c) {
      RoundsTell(c, f + 1, tail);
      OneRound(c, f, Rounds(Enough(c) - (f + 1), tail));
    }
  }

  /** One slow login is cleared; others lock the key; its failure comes after the lock. */
  lemma SlowLogin(c: Config) returns (es: seq<Event>)
    requires ShortLock(c) && c.maxEntries >= 1
    ensures LegalRun(c, map[], es) && Quiet(es) && Overlapping(c, map[], es, multiset{})
    ensures !Unobservable(c, map[], es, 0)
  {
    var at := if c.lockoutDur >= 0 then c.lockoutDur + 1 else 0;
    LateTells(c, at);
    var rest := Rounds(Enough(c), [Event(Fail(KEY), at, {})]);
    RoundsTell(c, 0, [Event(Fail(KEY), at, {})]);
    RoundStep(c, 0);
    assert multiset{} + multiset{KEY} == multiset{KEY};
    TellingLater(c, map[], QUERY, rest, multiset{});
    es := [QUERY] + rest;
    var i, sweepAt := UnsafeIsSeen(c, map[], es, 0);
    assert !Unnoticed(c, map[], es, i, sweepAt);
  }

  lemma LongLock(c: Config, es: seq<Event>, start: Time)
    requires !ShortLock(c) && c.maxEntries >= 1 && LegalRun(c, map[], es) && Quiet(es)
    ensures Unobservable(c, map[], es, start)
  {
    ReadyIsUnobservable(c, es, start);
  }

  /**
    For arbitrary runs that evict nothing, cleanup is unobservable exactly when the lockout is at
    least as long as the window, or the window is negative so that no record ever counts. With a
    shorter lockout a failure recorded after the lock ran out locks the key again at once, unless
    a cleanup swept the record first.
   */
  lemma CleanupIff(c: Config)
    requires c.maxEntries >= 1
    ensures CleanupInvisible(c) <==> c.lockoutDur >= c.windowDur || c.windowDur < 0
  {
    if ShortLock(c) {
      var es := SlowLogin(c);
    } else {
      forall es, start | LegalRun(c, map[], es) && Quiet(es)
        ensures Unobservable(c, map[], es, start)
      {
        LongLock(c, es, start);
      }
    }
  }

  /**
    And the login handler's own discipline does not help when logins of one key overlap: the same
    condition on the configuration is then exact.
   */
  lemma OverlapIff(c: Config)
    requires c.maxEntries >= 1
    ensures InvisibleToLogins(c) <==> c.lockoutDur >= c.windowDur || c.windowDur < 0
  {
    if ShortLock(c) {
      var es := SlowLogin(c);
    } else {
      forall es, start |
        LegalRun(c, map[], es) && Quiet(es) && Overlapping(c, map[], es, multiset{})
        ensures Unobservable(c, map[], es, start)
      {
        LongLock(c, es, start);
      }
    }
  }

  const SHORT := Config(2, 10, 1, 10000)

  /** The map after each call of the run below. */
  const ONE_FAILED: Attempts := map[KEY := Rec(1, None, 0)]
  const LOCKED: Attempts := map[KEY := Rec(2, Some(0), 0)]

  const LATE := Event(Fail(KEY), 5, {})

  lemma ThreeSteps()
    ensures After(SHORT, map[], QUERY) == map[] && Reply(SHORT, map[], QUERY) == NO
    ensures After(SHORT, map[], FAILURE) == ONE_FAILED && Reply(SHORT, map[], FAILURE) == NO
    ensures After(SHORT, ONE_FAILED, QUERY) == ONE_FAILED && Reply(SHORT, ONE_FAILED, QUERY) == NO
    ensures After(SHORT, ONE_FAILED, FAILURE) == LOCKED
    ensures Reply(SHORT, ONE_FAILED, FAILURE) == Answer(true, 1)
    ensures Reply(SHORT, LOCKED, LATE) == Answer(true, 1)
    ensures Clean(SHORT, LOCKED, 3) == map[] && Reply(SHORT, map[], LATE) == NO
  {
  }

  /** One step of the run and of its swept twin. */
  lemma OneStep(m: Attempts, e: Event, es: seq<Event>, swept: seq<Event>, out: multiset<Key>)
    requires e.evicted == {} && |m| < 10000 && (e.op.Fail? ==> e.op.key in out)
    requires Below(SHORT, After(SHORT, m, e), es)
    requires Overlapping(SHORT, After(SHORT, m, e), es, Outstanding(SHORT, m, e, out))
    ensures Below(SHORT, m, [e] + es) && Overlapping(SHORT, m, [e] + es, out)
    ensures Replies(SHORT, m, [e] + es) == [Reply(SHORT, m, e)] + Replies(SHORT, After(SHORT, m, e), es)
    ensures Replies(SHORT, m, [e] + swept)
            == [Reply(SHORT, m, e)] + Replies(SHORT, After(SHORT, m, e), swept)
  {
    ConsLogins(SHORT, m, e, es, out);
    ConsReplies(SHORT, m, e, es);
    ConsReplies(SHORT, m, e, swept);
  }

  /** The run from its last call back to the first pending login. */
  lemma LastFour()
    ensures var es := [QUERY, QUERY, FAILURE, LATE];
            && Below(SHORT, ONE_FAILED, es) && Overlapping(SHORT, ONE_FAILED, es, multiset{})
            && Replies(SHORT, ONE_FAILED, es) == [NO, NO, Answer(true, 1), Answer(true, 1)]
            && Replies(SHORT, ONE_FAILED, [QUERY, QUERY, FAILURE, Sweep(3), LATE])
               == [NO, NO, Answer(true, 1), NO, NO]
  {
    ThreeSteps();
    assert multiset{} + multiset{KEY} == multiset{KEY} && multiset{KEY} - multiset{KEY} == multiset{};
    assert multiset{KEY} + multiset{KEY} == multiset{KEY, KEY};
    assert multiset{KEY, KEY} - multiset{KEY} == multiset{KEY};
    ConsReplies(SHORT, LOCKED, Sweep(3), [LATE]);
    ConsReplies(SHORT, map[], LATE, []);
    OneStep(LOCKED, LATE, [], [], multiset{KEY});
    assert [LATE] + [] == [LATE] && [Sweep(3)] + [LATE] == [Sweep(3), LATE];
    OneStep(ONE_FAILED, FAILURE, [LATE], [Sweep(3), LATE], multiset{KEY, KEY});
    var three, swept := [FAILURE] + [LATE], [FAILURE] + [Sweep(3), LATE];
    OneStep(ONE_FAILED, QUERY, three, swept, multiset{KEY});
    OneStep(ONE_FAILED, QUERY, [QUERY] + three, [QUERY] + swept, multiset{});
    assert [QUERY] + ([QUERY] + three) == [QUERY, QUERY, FAILURE, LATE];
    assert [QUERY] + ([QUERY] + swept) == [QUERY, QUERY, FAILURE, Sweep(3), LATE];
  }

  /**
    One such run: three logins of one key, the last two cleared before either failed. The second
    failure locks the key for one unit; the third, recorded at time 5, locks it again, unless a
    cleanup ran at time 3.
   */
  lemma ThreeLogins()
    ensures var es := [QUERY, FAILURE, QUERY, QUERY, FAILURE, LATE];
            && Below(SHORT, map[], es) && Overlapping(SHORT, map[], es, multiset{})
            && Replies(SHORT, map[], es) == [NO, NO, NO, NO, Answer(true, 1), Answer(true, 1)]
            && Replies(SHORT, map[], Inserted(es, 5, Sweep(3)))
               == [NO, NO, NO, NO, Answer(true, 1), NO, NO]
  {
    ThreeSteps();
    LastFour();
    var es, last := [QUERY, FAILURE, QUERY, QUERY, FAILURE, LATE], [QUERY, QUERY, FAILURE, LATE];
    var swept := [QUERY, QUERY, FAILURE, Sweep(3), LATE];
    assert multiset{} + multiset{KEY} == multiset{KEY} && multiset{KEY} - multiset{KEY} == multiset{};
    OneStep(map[], FAILURE, last, swept, multiset{KEY});
    OneStep(map[], QUERY, [FAILURE] + last, [FAILURE] + swept, multiset{});
    assert es == [QUERY] + ([FAILURE] + last);
    assert Inserted(es, 5, Sweep(3)) == [QUERY] + ([FAILURE] + swept);
  }
}
