/**
  Every interleaving of the session operations. A login and a refresh are a read followed later by
  a write, so other calls run in between; each statement outside a transaction and each
  transaction is one atomic event on one clock. Fresh tokens and families are drawn by the caller.
 */
module Rotation {
  import opened Prelude
  import opened Sessions

  type Call = nat

  /** A call between its read and its write. */
  datatype Flight =
    | LoggingIn(access: Access)
    | Refreshing(token: Token)
    | Killing(family: Family, user: User)

  /** `issued` and `families` remember every token and family ever written, with its family. */
  datatype World = World(
    db: Db,
    now: Time,
    flights: map<Call, Flight>,
    issued: map<Token, Family>,
    families: set<Family>,
    access: set<Access>,
    exchanged: seq<Token>)

  datatype Event =
    | LoginRead(call: Call, user: User)
    | LoginWrite(call: Call, token: Token, family: Family, ok: bool)
    | RefreshRead(call: Call, token: Token)
    | RefreshTx(call: Call, next: Token, ok: bool)
    | ReplayTx(call: Call, ok: bool)
    | Logout(token: Token)
    | LogoutAll(user: User, ok: bool)
    | Cleanup
    | AddUser(user: User)
    | SetActive(user: User, active: bool)
    | BumpVersion(user: User)
    | Tick(at: Time)

  datatype Outcome =
    | Silent
    | Denied(error: Error)
    | InFlight
    | ReplayDetected
    | Granted(access: Access, token: Token)

  function Start(now: Time): World {
    World(Db(map[], map[]), now, map[], map[], {}, {}, [])
  }

  /** What the surroundings owe: ids are fresh, a call is written once, the clock is monotone. */
  predicate Legal(w: World, e: Event) {
    match e
    case LoginRead(c, u) => c !in w.flights
    case LoginWrite(c, t, f, ok) =>
      c in w.flights && w.flights[c].LoggingIn? && FreshToken(w, t) && f !in w.families
    case RefreshRead(c, t) => c !in w.flights
    case RefreshTx(c, next, ok) => c in w.flights && w.flights[c].Refreshing? && FreshToken(w, next)
    case ReplayTx(c, ok) => c in w.flights && w.flights[c].Killing?
    case AddUser(u) => u !in w.db.users
    case Tick(at) => at >= w.now
    case _ => true
  }

  predicate FreshToken(w: World, t: Token) { t != "" && t !in w.issued }

  function Landed(w: World, c: Call): World { w.(flights := w.flights - {c}) }

  function LoginReads(w: World, c: Call, u: User): (World, Outcome) {
    if u in w.db.users && w.db.users[u].active
    then (w.(flights := w.flights[c := LoggingIn(Access(u, w.db.users[u].version))]), InFlight)
    else (w, Denied(Failed))
  }

  function LoginWrites(w: World, c: Call, t: Token, f: Family, ok: bool): (World, Outcome)
    requires c in w.flights && w.flights[c].LoggingIn?
  {
    var a := w.flights[c].access;
    var created := Create(w.db, t, NewRow(a.user, f, w.now));
    if created.None? || !ok then (Landed(w, c), Denied(Failed))
    else
      (Landed(w, c).(db := created.value, issued := w.issued[t := f],
                     families := w.families + {f}, access := w.access + {a}),
       Granted(a, t))
  }

  function RefreshReads(w: World, c: Call, t: Token): (World, Outcome) {
    match Decide(w.db, t, w.now)
    case Refused => (w, Denied(InvalidRefreshToken))
    case Replayed(f, u) => (w.(flights := w.flights[c := Killing(f, u)]), ReplayDetected)
    case Rotating => (w.(flights := w.flights[c := Refreshing(t)]), InFlight)
  }

  function RefreshWrites(w: World, c: Call, next: Token, ok: bool): (World, Outcome)
    requires c in w.flights && w.flights[c].Refreshing?
  {
    var t := w.flights[c].token;
    var r := Rotate(w.db, t, next, w.now, ok);
    if r.Err? then (Landed(w, c), Denied(r.error))
    else
      (Landed(w, c).(db := r.value.0, issued := w.issued[next := w.db.tokens[t].family],
                     access := w.access + {r.value.1}, exchanged := w.exchanged + [t]),
       Granted(r.value.1, next))
  }

  function ReplayWrites(w: World, c: Call, ok: bool): (World, Outcome)
    requires c in w.flights && w.flights[c].Killing?
  {
    var r := Kill(w.db, w.flights[c].family, w.flights[c].user, ok);
    (Landed(w, c).(db := if r.Ok? then r.value else w.db), Denied(InvalidRefreshToken))
  }

  function Step(w: World, e: Event): (World, Outcome)
    requires Legal(w, e)
  {
    match e
    case LoginRead(c, u) => LoginReads(w, c, u)
    case LoginWrite(c, t, f, ok) => LoginWrites(w, c, t, f, ok)
    case RefreshRead(c, t) => RefreshReads(w, c, t)
    case RefreshTx(c, next, ok) => RefreshWrites(w, c, next, ok)
    case ReplayTx(c, ok) => ReplayWrites(w, c, ok)
    case Logout(t) => (w.(db := w.db.(tokens := w.db.tokens - {t})), Silent)
    case LogoutAll(u, ok) =>
      var r := RevokeAll(w.db, u, ok);
      if r.Ok? then (w.(db := r.value), Silent) else (w, Denied(r.error))
    case Cleanup => (w.(db := Sweep(w.db, w.now)), Silent)
    case AddUser(u) => (w.(db := w.db.(users := w.db.users[u := Account(true, 0)])), Silent)
    case SetActive(u, b) =>
      if u !in w.db.users then (w, Silent)
      else (w.(db := w.db.(users := w.db.users[u := w.db.users[u].(active := b)])), Silent)
    case BumpVersion(u) =>
      var b := Bumped(w.db, u);
      if b.None? then (w, Silent) else (w.(db := b.value), Silent)
    case Tick(at) => (w.(now := at), Silent)
  }

  function After(w: World, e: Event): World
    requires Legal(w, e)
  {
    Step(w, e).0
  }

  ghost predicate LegalRun(w: World, es: seq<Event>)
    decreases |es|
  {
    es != [] ==> Legal(w, es[0]) && LegalRun(After(w, es[0]), es[1..])
  }

  function Final(w: World, es: seq<Event>): World
    requires LegalRun(w, es)
    decreases |es|
  {
    if es == [] then w else Final(After(w, es[0]), es[1..])
  }

  function Outcomes(w: World, es: seq<Event>): (r: seq<Outcome>)
    requires LegalRun(w, es)
    ensures |r| == |es|
    decreases |es|
  {
    if es == [] then [] else [Step(w, es[0]).1] + Outcomes(After(w, es[0]), es[1..])
  }

  // ---------- the invariant ----------

  ghost predicate RowsOk(w: World) {
    forall t :: t in w.db.tokens ==>
      && t in w.issued && w.db.tokens[t].family == w.issued[t]
      && w.db.tokens[t].user in w.db.users && Dated(w.db.tokens[t], w.now)
  }

  ghost predicate FamiliesOk(w: World) {
    "" !in w.issued && forall t :: t in w.issued ==> w.issued[t] in w.families
  }

  /** Each family has at most one unspent token row. */
  ghost predicate OneUnspent(db: Db) {
    forall s, t :: s in db.tokens && t in db.tokens && s != t
      && db.tokens[s].used.None? && db.tokens[t].used.None?
      ==> db.tokens[s].family != db.tokens[t].family
  }

  ghost predicate NoRepeats<T>(xs: seq<T>) {
    forall i, j :: 0 <= i < j < |xs| ==> xs[i] != xs[j]
  }

  /** A token that was exchanged is never unspent again. */
  ghost predicate ExchangedOk(w: World) {
    && NoRepeats(w.exchanged)
    && forall t :: t in w.exchanged ==>
         t in w.issued && (t in w.db.tokens ==> w.db.tokens[t].used.Some?)
  }

  predicate Behind(db: Db, a: Access) { a.user in db.users && a.version <= db.users[a.user].version }

  /** No access token, handed out or still to be handed out, is ahead of its user. */
  ghost predicate VersionsOk(w: World) {
    && (forall a :: a in w.access ==> Behind(w.db, a))
    && (forall c :: c in w.flights && w.flights[c].LoggingIn? ==> Behind(w.db, w.flights[c].access))
  }

  ghost predicate KillingOk(w: World) {
    forall c :: c in w.flights && w.flights[c].Killing? ==>
      w.flights[c].user in w.db.users && w.flights[c].family in w.families
  }

  ghost predicate Inv(w: World) {
    && RowsOk(w) && FamiliesOk(w) && OneUnspent(w.db)
    && ExchangedOk(w) && VersionsOk(w) && KillingOk(w)
  }

  /** What all events but the two that insert a row do to the token table. */
  ghost predicate Shrinks(d: Db, d': Db) {
    && d'.tokens.Keys <= d.tokens.Keys
    && (forall t :: t in d'.tokens ==> d'.tokens[t] == d.tokens[t])
    && UsersGrow(d, d')
  }

  ghost predicate UsersGrow(d: Db, d': Db) {
    forall u :: u in d.users ==> u in d'.users && d.users[u].version <= d'.users[u].version
  }

  predicate Inserts(w: World, e: Event)
    requires Legal(w, e)
  {
    (e.LoginWrite? || e.RefreshTx?) && Step(w, e).1.Granted?
  }

  lemma OthersShrink(w: World, e: Event)
    requires Legal(w, e) && !Inserts(w, e)
    ensures var w' := After(w, e);
            && Shrinks(w.db, w'.db) && w'.now >= w.now
            && w'.issued == w.issued && w'.families == w.families
            && w'.access == w.access && w'.exchanged == w.exchanged
  {
  }

  /** Apart from a login's own read, the calls in flight only land. */
  lemma FlightsAfter(w: World, e: Event, c: Call)
    requires Legal(w, e) && c in After(w, e).flights && After(w, e).flights[c].LoggingIn?
    ensures (c in w.flights && After(w, e).flights[c] == w.flights[c])
            || (e == LoginRead(c, e.user) && !Inserts(w, e)
                && Behind(After(w, e).db, After(w, e).flights[c].access))
  {
  }

  lemma UsersGrowAlways(w: World, e: Event)
    requires Legal(w, e)
    ensures UsersGrow(w.db, After(w, e).db)
  {
  }

  lemma FlightsStayBehind(w: World, e: Event)
    requires Legal(w, e) && VersionsOk(w)
    ensures var w' := After(w, e);
            forall c :: c in w'.flights && w'.flights[c].LoggingIn? ==>
              Behind(w'.db, w'.flights[c].access)
  {
    var w' := After(w, e);
    UsersGrowAlways(w, e);
    forall c | c in w'.flights && w'.flights[c].LoggingIn?
      ensures Behind(w'.db, w'.flights[c].access)
    {
      FlightsAfter(w, e, c);
    }
  }

  lemma KillingStaysOk(w: World, e: Event)
    requires Legal(w, e) && KillingOk(w) && RowsOk(w) && FamiliesOk(w)
    ensures KillingOk(After(w, e))
  {
    var w' := After(w, e);
    UsersGrowAlways(w, e);
    forall c | c in w'.flights && w'.flights[c].Killing?
      ensures w'.flights[c].user in w'.db.users && w'.flights[c].family in w'.families
    {
      if c in w.flights && w.flights[c] == w'.flights[c] {
      } else {
        assert e.RefreshRead? && e.call == c;
      }
    }
  }

  lemma ShrinkKeepsInv(w: World, e: Event)
    requires Inv(w) && Legal(w, e) && !Inserts(w, e)
    ensures Inv(After(w, e))
  {
    OthersShrink(w, e);
    FlightsStayBehind(w, e);
    KillingStaysOk(w, e);
  }

  lemma LoginKeepsInv(w: World, e: Event)
    requires Inv(w) && Legal(w, e) && e.LoginWrite? && Inserts(w, e)
    ensures Inv(After(w, e))
  {
    FlightsStayBehind(w, e);
    KillingStaysOk(w, e);
    var w' := After(w, e);
    assert w'.db.users == w.db.users;
    assert OneUnspent(w'.db);
  }

  lemma RefreshKeepsInv(w: World, e: Event)
    requires Inv(w) && Legal(w, e) && e.RefreshTx? && Inserts(w, e)
    ensures Inv(After(w, e))
  {
    FlightsStayBehind(w, e);
    KillingStaysOk(w, e);
    RotateMeans(w.db, w.flights[e.call].token, e.next, w.now, e.ok);
    RefreshKeepsRows(w, e);
    RefreshKeepsOne(w, e);
    RefreshKeepsExchanged(w, e);
  }

  lemma RefreshKeepsRows(w: World, e: Event)
    requires RowsOk(w) && FamiliesOk(w) && Legal(w, e) && e.RefreshTx? && Inserts(w, e)
    ensures RowsOk(After(w, e)) && FamiliesOk(After(w, e))
  {
    RotateMeans(w.db, w.flights[e.call].token, e.next, w.now, e.ok);
  }

  lemma RefreshKeepsOne(w: World, e: Event)
    requires OneUnspent(w.db) && Legal(w, e) && e.RefreshTx? && Inserts(w, e)
    ensures OneUnspent(After(w, e).db)
  {
    RotateMeans(w.db, w.flights[e.call].token, e.next, w.now, e.ok);
  }

  lemma RefreshKeepsExchanged(w: World, e: Event)
    requires ExchangedOk(w) && RowsOk(w) && Legal(w, e) && e.RefreshTx? && Inserts(w, e)
    ensures ExchangedOk(After(w, e))
  {
    RotateMeans(w.db, w.flights[e.call].token, e.next, w.now, e.ok);
  }

  lemma StepKeepsInv(w: World, e: Event)
    requires Inv(w) && Legal(w, e)
    ensures Inv(After(w, e))
  {
    if !Inserts(w, e) {
      ShrinkKeepsInv(w, e);
    } else if e.LoginWrite? {
      LoginKeepsInv(w, e);
    } else {
      RefreshKeepsInv(w, e);
    }
  }

  lemma {:induction false} RunKeepsInv(w: World, es: seq<Event>)
    requires Inv(w) && LegalRun(w, es)
    ensures Inv(Final(w, es))
    decreases |es|
  {
    if es != [] {
      StepKeepsInv(w, es[0]);
      RunKeepsInv(After(w, es[0]), es[1..]);
    }
  }

  // ---------- rotation safety ----------

  /**
    In every interleaving, each family has at most one unspent token, no token is exchanged twice
    over the whole run, and every exchanged token that still has a row is marked as spent.
   */
  lemma RotationSafety(now: Time, es: seq<Event>)
    requires LegalRun(Start(now), es)
    ensures var w := Final(Start(now), es);
            && OneUnspent(w.db) && NoRepeats(w.exchanged)
            && forall t :: t in w.exchanged && t in w.db.tokens ==> w.db.tokens[t].used.Some?
  {
    RunKeepsInv(Start(now), es);
  }

  // ---------- a replay kills for good ----------

  ghost predicate Dead(w: World, f: Family, u: User, version: int) {
    && f in w.families
    && (forall t :: t in w.db.tokens ==> w.db.tokens[t].family != f)
    && u in w.db.users && w.db.users[u].version > version
  }

  lemma DeadStaysDead(w: World, e: Event, f: Family, u: User, version: int)
    requires Inv(w) && Legal(w, e) && Dead(w, f, u, version)
    ensures var w' := After(w, e);
            && Dead(w', f, u, version)
            && (w'.exchanged == w.exchanged
                || exists t :: w'.exchanged == w.exchanged + [t] && t in w.issued && w.issued[t] != f)
            && forall t :: t in w.issued ==> t in w'.issued && w'.issued[t] == w.issued[t]
  {
    UsersGrowAlways(w, e);
    if !Inserts(w, e) {
      OthersShrink(w, e);
    } else if e.RefreshTx? {
      var t := w.flights[e.call].token;
      RotateMeans(w.db, t, e.next, w.now, e.ok);
      assert After(w, e).exchanged == w.exchanged + [t] && w.issued[t] != f;
    }
  }

  /** No token exchanged from position `n` on belongs to family `f`. */
  ghost predicate NoneOf(w: World, n: nat, f: Family) {
    forall i :: n <= i < |w.exchanged| ==>
      w.exchanged[i] in w.issued && w.issued[w.exchanged[i]] != f
  }

  lemma {:induction false} DeadForever(
    w: World, es: seq<Event>, f: Family, u: User, version: int, n: nat)
    requires Inv(w) && LegalRun(w, es) && Dead(w, f, u, version)
    requires n <= |w.exchanged| && NoneOf(w, n, f)
    ensures Dead(Final(w, es), f, u, version) && NoneOf(Final(w, es), n, f)
    decreases |es|
  {
    if es != [] {
      StepKeepsInv(w, es[0]);
      DeadStaysDead(w, es[0], f, u, version);
      DeadForever(After(w, es[0]), es[1..], f, u, version, n);
    }
  }

  /** Access tokens a client holds, or a login that has read the user row will hand out. */
  ghost predicate InHand(w: World, a: Access) {
    a in w.access || exists c :: c in w.flights && w.flights[c] == LoggingIn(a)
  }

  /**
    When a replay transaction commits, from then on and whatever happens, no token of the family is
    exchanged, presenting one is refused, and every access token of the user that was handed out
    or in flight at the commit is rejected.
   */
  lemma ReplayKillsForGood(w: World, call: Call, es: seq<Event>)
    requires Inv(w) && Legal(w, ReplayTx(call, true))
    requires LegalRun(After(w, ReplayTx(call, true)), es)
    ensures var f, u := w.flights[call].family, w.flights[call].user;
            var w' := Final(After(w, ReplayTx(call, true)), es);
            && NoneOf(w', |w.exchanged|, f)
            && (forall t :: t in w'.issued && w'.issued[t] == f ==>
                  Decide(w'.db, t, w'.now) == Refused)
            && (forall a :: InHand(w, a) && a.user == u ==> !Accepts(w'.db, a))
  {
    var e := ReplayTx(call, true);
    var f, u := w.flights[call].family, w.flights[call].user;
    StepKeepsInv(w, e);
    var v := w.db.users[u].version;
    DeadForever(After(w, e), es, f, u, v, |w.exchanged|);
    RunKeepsInv(After(w, e), es);
    forall a | InHand(w, a) && a.user == u ensures a.version <= v {
      assert Behind(w.db, a);
    }
  }

  // ---------- revoking all sessions ends them for good ----------

  /** A token of the user, or one whose row is gone. */
  predicate Ended(w: World, t: Token, u: User) {
    t in w.issued && (t in w.db.tokens ==> w.db.tokens[t].user == u)
  }

  /** None of the tokens is among those exchanged from position `n` on. */
  ghost predicate NeverSince(w: World, n: nat, ts: set<Token>) {
    forall i :: n <= i < |w.exchanged| ==> w.exchanged[i] !in ts
  }

  /** Issued tokens without a row. */
  ghost predicate AllGone(w: World, ts: set<Token>) {
    forall t :: t in ts ==> t in w.issued && t !in w.db.tokens
  }

  lemma GoneStepAll(w: World, e: Event, ts: set<Token>, n: nat)
    requires Inv(w) && Legal(w, e) && AllGone(w, ts) && NeverSince(w, n, ts)
    ensures AllGone(After(w, e), ts) && NeverSince(After(w, e), n, ts)
  {
    forall t | t in ts ensures t !in After(w, e).db.tokens && t in After(w, e).issued {
      GoneStaysGone(w, e, t);
    }
    if !Inserts(w, e) {
      OthersShrink(w, e);
    } else if e.RefreshTx? {
      RotateMeans(w.db, w.flights[e.call].token, e.next, w.now, e.ok);
    }
  }

  lemma {:induction false} GoneForever(w: World, es: seq<Event>, ts: set<Token>, n: nat)
    requires Inv(w) && LegalRun(w, es) && AllGone(w, ts) && NeverSince(w, n, ts)
    ensures AllGone(Final(w, es), ts) && NeverSince(Final(w, es), n, ts)
    decreases |es|
  {
    if es != [] {
      GoneStepAll(w, es[0], ts, n);
      StepKeepsInv(w, es[0]);
      GoneForever(After(w, es[0]), es[1..], ts, n);
    }
  }

  lemma {:induction false} VersionNeverFalls(w: World, es: seq<Event>)
    requires LegalRun(w, es)
    ensures UsersGrow(w.db, Final(w, es).db)
    decreases |es|
  {
    if es != [] {
      UsersGrowAlways(w, es[0]);
      VersionNeverFalls(After(w, es[0]), es[1..]);
    }
  }

  /** The refresh that has read the token is denied whenever its transaction runs. */
  ghost predicate DeniedInFlight(w: World, t: Token) {
    forall c, next, ok :: c in w.flights && w.flights[c] == Refreshing(t) && FreshToken(w, next) ==>
      Step(w, RefreshTx(c, next, ok)) == (Landed(w, c), Denied(InvalidRefreshToken))
  }

  /**
    When revoking all sessions of a user commits, then from that moment on and whatever happens: no
    token of the user issued before is exchanged, presenting one is refused, a refresh that had read
    one is denied, and every access token of the user handed out or in flight is rejected.
   */
  lemma RevokeAllEndsForGood(w: World, u: User, es: seq<Event>)
    requires Inv(w) && u in w.db.users && LegalRun(After(w, LogoutAll(u, true)), es)
    ensures var w' := Final(After(w, LogoutAll(u, true)), es);
            && NeverSince(w', |w.exchanged|, set t | t in w.issued && Ended(w, t, u))
            && (forall t :: Ended(w, t, u) ==>
                  Decide(w'.db, t, w'.now) == Refused && DeniedInFlight(w', t))
            && (forall a :: InHand(w, a) && a.user == u ==> !Accepts(w'.db, a))
  {
    var e := LogoutAll(u, true);
    var w1 := After(w, e);
    var ts := set t | t in w.issued && Ended(w, t, u);
    RevokeAllMeans(w.db, u, true);
    StepKeepsInv(w, e);
    GoneForever(w1, es, ts, |w.exchanged|);
    VersionNeverFalls(w1, es);
    var w' := Final(w1, es);
    forall t | Ended(w, t, u) ensures Decide(w'.db, t, w'.now) == Refused && DeniedInFlight(w', t) {
      assert t in ts;
    }
    forall a | InHand(w, a) && a.user == u ensures a.version < w'.db.users[u].version {
      assert Behind(w.db, a);
    }
  }

  // ---------- how long an access token is good ----------

  /** The event raises the version of the user. */
  predicate Bumps(w: World, e: Event, u: User)
    requires Legal(w, e)
  {
    || (e.LogoutAll? && e.ok && e.user == u)
    || (e.ReplayTx? && e.ok && w.flights[e.call].user == u)
    || e == BumpVersion(u)
  }

  ghost predicate BumpedIn(w: World, es: seq<Event>, u: User)
    requires LegalRun(w, es)
    decreases |es|
  {
    es != [] && (Bumps(w, es[0], u) || BumpedIn(After(w, es[0]), es[1..], u))
  }

  lemma VersionAfter(w: World, e: Event, u: User)
    requires Legal(w, e) && u in w.db.users
    ensures u in After(w, e).db.users
    ensures After(w, e).db.users[u].version == w.db.users[u].version + if Bumps(w, e, u) then 1 else 0
  {
    if e.ReplayTx? {
      KillMeans(w.db, w.flights[e.call].family, w.flights[e.call].user, e.ok);
    } else if e.LogoutAll? {
      RevokeAllMeans(w.db, e.user, e.ok);
    }
  }

  lemma {:induction false} VersionUnlessBumped(w: World, es: seq<Event>, u: User)
    requires LegalRun(w, es) && u in w.db.users
    ensures u in Final(w, es).db.users
    ensures Final(w, es).db.users[u].version >= w.db.users[u].version
    ensures Final(w, es).db.users[u].version == w.db.users[u].version <==> !BumpedIn(w, es, u)
    decreases |es|
  {
    if es != [] {
      VersionAfter(w, es[0], u);
      VersionUnlessBumped(After(w, es[0]), es[1..], u);
    }
  }

  /** The call does not write a login in the run. */
  ghost predicate NoLoginWrite(es: seq<Event>, c: Call) {
    forall i :: 0 <= i < |es| && es[i].LoginWrite? ==> es[i].call != c
  }

  lemma LoginStays(w: World, e: Event, c: Call)
    requires Legal(w, e) && c in w.flights && w.flights[c].LoggingIn?
    requires e.LoginWrite? ==> e.call != c
    ensures c in After(w, e).flights && After(w, e).flights[c] == w.flights[c]
  {
  }

  lemma {:induction false} LoginWaits(w: World, es: seq<Event>, c: Call)
    requires LegalRun(w, es) && c in w.flights && w.flights[c].LoggingIn? && NoLoginWrite(es, c)
    ensures c in Final(w, es).flights && Final(w, es).flights[c] == w.flights[c]
    decreases |es|
  {
    if es != [] {
      LoginStays(w, es[0], c);
      assert NoLoginWrite(es[1..], c) by {
        assert forall i :: 0 <= i < |es| - 1 ==> es[1..][i] == es[i + 1];
      }
      LoginWaits(After(w, es[0]), es[1..], c);
    }
  }

  /**
    What a login grants, however long other calls run between its read and its write: an access token
    of that user, accepted exactly if nothing has bumped the user in between, and one new unspent row
    of a new family that lives thirty days.
   */
  lemma LoginMeans(w: World, c: Call, u: User, es: seq<Event>, t: Token, f: Family)
    requires Inv(w) && Legal(w, LoginRead(c, u)) && Step(w, LoginRead(c, u)).1 == InFlight
    requires LegalRun(After(w, LoginRead(c, u)), es) && NoLoginWrite(es, c)
    requires var w1 := Final(After(w, LoginRead(c, u)), es); FreshToken(w1, t) && f !in w1.families
    ensures u in w.db.users && w.db.users[u].active
    ensures var w1 := Final(After(w, LoginRead(c, u)), es);
            && Legal(w1, LoginWrite(c, t, f, true))
            && var (w2, o) := Step(w1, LoginWrite(c, t, f, true));
               && o.Granted? && o.token == t && o.access.user == u
               && (Accepts(w2.db, o.access) <==> !BumpedIn(After(w, LoginRead(c, u)), es, u))
               && w2.db.users == w1.db.users && t !in w1.db.tokens
               && w2.db.tokens == w1.db.tokens[t := Row(u, f, None, w1.now, w1.now + 30 * 24 * 3600)]
  {
    var w0 := After(w, LoginRead(c, u));
    StepKeepsInv(w, LoginRead(c, u));
    RunKeepsInv(w0, es);
    LoginWaits(w0, es, c);
    VersionUnlessBumped(w0, es, u);
  }

  /** An access token stays accepted exactly until an event bumps its user. */
  lemma AcceptedUntilBumped(w: World, es: seq<Event>, a: Access)
    requires LegalRun(w, es) && Accepts(w.db, a)
    ensures Accepts(Final(w, es).db, a) <==> !BumpedIn(w, es, a.user)
  {
    VersionUnlessBumped(w, es, a.user);
  }

  // ---------- the cleanup ----------

  /** What a token's row is worth: an expired one is worth nothing. */
  function View(w: World, t: Token): Option<Row> {
    if t in w.db.tokens && w.db.tokens[t].expires >= w.now then Some(w.db.tokens[t]) else None
  }

  /** Two worlds that differ in expired rows only. */
  ghost predicate Same(v: World, w: World) {
    && v.(db := w.db) == w && v.db.users == w.db.users
    && forall t :: View(v, t) == View(w, t)
  }

  lemma CleanupIsSame(w: World)
    requires Inv(w)
    ensures Same(w, After(w, Cleanup))
  {
    forall t ensures View(w, t) == View(After(w, Cleanup), t) {
      if t in w.db.tokens {
        SweptIsExpired(w.db.tokens[t], w.now, w.now);
      }
    }
  }

  lemma SameDecision(v: World, w: World, t: Token)
    requires Same(v, w)
    ensures Decide(v.db, t, v.now) == Decide(w.db, t, w.now)
  {
    assert View(v, t) == View(w, t);
  }

  lemma SameConsume(v: World, w: World, t: Token)
    requires Same(v, w)
    ensures Consume(v.db, t, v.now).Some? == Consume(w.db, t, w.now).Some?
    ensures Consume(v.db, t, v.now).Some? ==> v.db.tokens[t] == w.db.tokens[t]
  {
    assert View(v, t) == View(w, t);
  }

  lemma SameDenied(v: World, w: World, e: Event)
    requires Inv(v) && Inv(w) && Same(v, w) && Legal(v, e)
    ensures Legal(w, e) && Step(v, e).1 == Step(w, e).1
  {
    if e.RefreshRead? {
      SameDecision(v, w, e.token);
    } else if e.RefreshTx? {
      SameConsume(v, w, v.flights[e.call].token);
    }
  }

  lemma SameAfterRefresh(v: World, w: World, e: Event, t: Token)
    requires Inv(v) && Inv(w) && Same(v, w) && Legal(v, e) && Legal(w, e) && e.RefreshTx?
    ensures View(After(v, e), t) == View(After(w, e), t)
  {
    var spent := v.flights[e.call].token;
    assert View(v, t) == View(w, t);
    SameConsume(v, w, spent);
    RotateMeans(v.db, spent, e.next, v.now, e.ok);
    RotateMeans(w.db, spent, e.next, w.now, e.ok);
    assert e.next !in v.db.tokens && e.next !in w.db.tokens;
  }

  lemma SameAfterCleanup(v: World, w: World, t: Token)
    requires Inv(v) && Inv(w) && Same(v, w)
    ensures View(After(v, Cleanup), t) == View(After(w, Cleanup), t)
  {
    CleanupIsSame(v);
    CleanupIsSame(w);
    assert View(v, t) == View(w, t);
    assert View(v, t) == View(After(v, Cleanup), t);
    assert View(w, t) == View(After(w, Cleanup), t);
  }

  lemma SameRows(v: World, w: World, e: Event, t: Token)
    requires Inv(v) && Inv(w) && Same(v, w) && Legal(v, e) && Legal(w, e)
    ensures View(After(v, e), t) == View(After(w, e), t)
  {
    if e.RefreshTx? {
      SameAfterRefresh(v, w, e, t);
    } else if e.Cleanup? {
      SameAfterCleanup(v, w, t);
    } else {
      SameAfterOther(v, w, e, t);
    }
  }

  lemma SameAfterOther(v: World, w: World, e: Event, t: Token)
    requires RowsOk(v) && RowsOk(w) && Same(v, w) && Legal(v, e) && Legal(w, e)
    requires !e.RefreshTx? && !e.Cleanup?
    ensures View(After(v, e), t) == View(After(w, e), t)
  {
    assert View(v, t) == View(w, t);
    if e.LoginWrite? {
      SameAfterLogin(v, w, e, t);
    } else if e.ReplayTx? {
      SameAfterReplay(v, w, e, t);
    } else if e.LogoutAll? {
      SameAfterLogoutAll(v, w, e, t);
    }
  }

  lemma SameAfterLogin(v: World, w: World, e: Event, t: Token)
    requires RowsOk(v) && RowsOk(w) && Same(v, w) && View(v, t) == View(w, t)
    requires Legal(v, e) && Legal(w, e) && e.LoginWrite?
    ensures View(After(v, e), t) == View(After(w, e), t)
  {
    assert e.token !in v.db.tokens && e.token !in w.db.tokens;
  }

  lemma SameAfterReplay(v: World, w: World, e: Event, t: Token)
    requires Same(v, w) && View(v, t) == View(w, t) && Legal(v, e) && Legal(w, e) && e.ReplayTx?
    ensures View(After(v, e), t) == View(After(w, e), t)
  {
  }

  lemma SameAfterLogoutAll(v: World, w: World, e: Event, t: Token)
    requires Same(v, w) && View(v, t) == View(w, t) && Legal(v, e) && Legal(w, e) && e.LogoutAll?
    ensures View(After(v, e), t) == View(After(w, e), t)
  {
  }

  lemma SameRest(v: World, w: World, e: Event)
    requires Inv(v) && Inv(w) && Same(v, w) && Legal(v, e) && Legal(w, e)
    ensures var v', w' := After(v, e), After(w, e);
            v'.(db := w'.db) == w' && v'.db.users == w'.db.users
  {
    if e.RefreshRead? {
      SameDecision(v, w, e.token);
    } else if e.RefreshTx? {
      SameRestRefresh(v, w, e);
    } else {
      SameRestOther(v, w, e);
    }
  }

  lemma SameRestRefresh(v: World, w: World, e: Event)
    requires Inv(v) && Inv(w) && Same(v, w) && Legal(v, e) && Legal(w, e) && e.RefreshTx?
    ensures var v', w' := After(v, e), After(w, e);
            v'.(db := w'.db) == w' && v'.db.users == w'.db.users
  {
    SameConsume(v, w, v.flights[e.call].token);
  }

  lemma SameRestOther(v: World, w: World, e: Event)
    requires Inv(v) && Inv(w) && Same(v, w) && Legal(v, e) && Legal(w, e)
    requires !e.RefreshTx? && !e.RefreshRead?
    ensures var v', w' := After(v, e), After(w, e);
            v'.(db := w'.db) == w' && v'.db.users == w'.db.users
  {
    if e.LoginWrite? {
      assert e.token !in v.db.tokens && e.token !in w.db.tokens;
    } else if e.ReplayTx? || e.LogoutAll? {
      SameRestRevoke(v, w, e);
    }
  }

  lemma SameRestRevoke(v: World, w: World, e: Event)
    requires Same(v, w) && Legal(v, e) && Legal(w, e) && (e.ReplayTx? || e.LogoutAll?)
    ensures var v', w' := After(v, e), After(w, e);
            v'.(db := w'.db) == w' && v'.db.users == w'.db.users
  {
  }

  lemma {:induction false} SameRun(v: World, w: World, es: seq<Event>)
    requires Inv(v) && Inv(w) && Same(v, w) && LegalRun(v, es)
    ensures LegalRun(w, es) && Outcomes(v, es) == Outcomes(w, es)
    decreases |es|
  {
    if es != [] {
      var e := es[0];
      SameDenied(v, w, e);
      SameRest(v, w, e);
      forall t ensures View(After(v, e), t) == View(After(w, e), t) {
        SameRows(v, w, e, t);
      }
      StepKeepsInv(v, e);
      StepKeepsInv(w, e);
      SameRun(After(v, e), After(w, e), es[1..]);
    }
  }

  lemma CleanupNow(w: World, es: seq<Event>)
    requires Inv(w) && LegalRun(w, es)
    ensures LegalRun(w, Inserted(es, 0, Cleanup))
    ensures Outcomes(w, Inserted(es, 0, Cleanup)) == Inserted(Outcomes(w, es), 0, Silent)
  {
    CleanupIsSame(w);
    StepKeepsInv(w, Cleanup);
    SameRun(w, After(w, Cleanup), es);
    var run := Inserted(es, 0, Cleanup);
    assert run[0] == Cleanup && run[1..] == es;
    assert Inserted(Outcomes(w, es), 0, Silent) == [Silent] + Outcomes(w, es);
  }

  lemma {:induction false} CleanupRun(w: World, es: seq<Event>, i: nat)
    requires Inv(w) && LegalRun(w, es) && i <= |es|
    ensures LegalRun(w, Inserted(es, i, Cleanup))
    ensures Outcomes(w, Inserted(es, i, Cleanup)) == Inserted(Outcomes(w, es), i, Silent)
    decreases i
  {
    if i == 0 {
      CleanupNow(w, es);
    } else {
      assert es == [es[0]] + es[1..];
      InsertedLater(es[0], es[1..], i, Cleanup);
      StepKeepsInv(w, es[0]);
      CleanupRun(After(w, es[0]), es[1..], i - 1);
      InsertedLater(Step(w, es[0]).1, Outcomes(After(w, es[0]), es[1..]), i, Silent);
    }
  }

  /** The cleanup statement inserted anywhere in a run changes no outcome of any other event. */
  lemma CleanupUnobservable(now: Time, es: seq<Event>, i: nat)
    requires LegalRun(Start(now), es) && i <= |es|
    ensures LegalRun(Start(now), Inserted(es, i, Cleanup))
    ensures Outcomes(Start(now), Inserted(es, i, Cleanup)) == Inserted(Outcomes(Start(now), es), i, Silent)
  {
    CleanupRun(Start(now), es, i);
  }

  // ---------- a replay stays detectable ----------

  /** The event deletes the row of `t`, other than by cleanup: logout, or a revocation. */
  predicate Removes(w: World, e: Event, t: Token)
    requires Legal(w, e) && t in w.db.tokens
  {
    || e == Logout(t)
    || (e.LogoutAll? && e.ok && e.user == w.db.tokens[t].user)
    || (e.ReplayTx? && e.ok && w.flights[e.call].family == w.db.tokens[t].family)
  }

  ghost predicate RemovedIn(w: World, es: seq<Event>, t: Token)
    requires LegalRun(w, es)
    decreases |es|
  {
    && es != [] && t in w.db.tokens
    && (Removes(w, es[0], t) || RemovedIn(After(w, es[0]), es[1..], t))
  }

  lemma SpentAfter(w: World, e: Event, t: Token)
    requires Inv(w) && Legal(w, e) && t in w.db.tokens && w.db.tokens[t].used.Some?
    ensures var d := After(w, e).db.tokens;
            && (t in d ==> d[t] == w.db.tokens[t])
            && (t in d <==> !Removes(w, e, t) && !(e == Cleanup && w.db.tokens[t].expires < w.now))
  {
    if e.RefreshTx? {
      RotateMeans(w.db, w.flights[e.call].token, e.next, w.now, e.ok);
    } else if e.Cleanup? {
      SweptIsExpired(w.db.tokens[t], w.now, w.now);
    }
  }

  lemma GoneStaysGone(w: World, e: Event, t: Token)
    requires Inv(w) && Legal(w, e) && t in w.issued && t !in w.db.tokens
    ensures t !in After(w, e).db.tokens && t in After(w, e).issued
  {
    if !Inserts(w, e) {
      OthersShrink(w, e);
    } else if e.RefreshTx? {
      RotateMeans(w.db, w.flights[e.call].token, e.next, w.now, e.ok);
    }
  }

  lemma {:induction false} GoneRun(w: World, es: seq<Event>, t: Token)
    requires Inv(w) && LegalRun(w, es) && t in w.issued && t !in w.db.tokens
    ensures t !in Final(w, es).db.tokens
    decreases |es|
  {
    if es != [] {
      GoneStaysGone(w, es[0], t);
      StepKeepsInv(w, es[0]);
      GoneRun(After(w, es[0]), es[1..], t);
    }
  }

  lemma {:induction false} ClockRuns(w: World, es: seq<Event>)
    requires LegalRun(w, es)
    ensures Final(w, es).now >= w.now
    decreases |es|
  {
    if es != [] {
      ClockRuns(After(w, es[0]), es[1..]);
    }
  }

  /**
    For as long as a spent token has not expired, presenting it again is detected as a replay of
    its family, exactly unless a logout or a revocation has deleted its row; cleanups in between
    make no difference.
   */
  lemma {:induction false} ReplayStaysDetectable(w: World, es: seq<Event>, t: Token)
    requires Inv(w) && LegalRun(w, es)
    requires t in w.db.tokens && w.db.tokens[t].used.Some?
    requires Final(w, es).now <= w.db.tokens[t].expires
    ensures var r, w' := w.db.tokens[t], Final(w, es);
            Decide(w'.db, t, w'.now)
            == if RemovedIn(w, es, t) then Refused else Replayed(r.family, r.user)
    decreases |es|
  {
    if es != [] {
      ClockRuns(w, es);
      SpentAfter(w, es[0], t);
      StepKeepsInv(w, es[0]);
      if t in After(w, es[0]).db.tokens {
        ReplayStaysDetectable(After(w, es[0]), es[1..], t);
      } else {
        assert t in After(w, es[0]).issued by { IssuedStays(w, es[0], t); }
        GoneRun(After(w, es[0]), es[1..], t);
      }
    }
  }

  lemma IssuedStays(w: World, e: Event, t: Token)
    requires Legal(w, e) && t in w.issued
    ensures t in After(w, e).issued
  {
  }
}
