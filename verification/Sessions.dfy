/**
  Refresh tokens: the SQL statements on refresh_tokens and users, and the service operations built
  from them. The functions say what one statement or one transaction does to the two tables; the
  class is the store itself, on which RunTx takes a snapshot and restores it when the body fails.
  A raw token stands for its hash.
 */
module Sessions {
  import opened Prelude

  type Time = int
  type Token = string
  type Family = string
  type User = string

  /** Thirty days, in seconds: the lifetime of a refresh token and the interval of the cleanup. */
  const LIFETIME := 30 * 24 * 3600

  datatype Row = Row(user: User, family: Family, used: Option<Time>, created: Time, expires: Time)

  datatype Account = Account(active: bool, version: int)

  datatype Db = Db(tokens: map<Token, Row>, users: map<User, Account>)

  /** The claims of an access token that matter here. */
  datatype Access = Access(user: User, version: int)

  datatype Error = InvalidRefreshToken | UserNotActive | Failed

  // ---------- statements ----------

  function NewRow(user: User, family: Family, now: Time): Row {
    Row(user, family, None, now, now + LIFETIME)
  }

  function Consume(db: Db, t: Token, now: Time): Option<Db> {
    if t in db.tokens && db.tokens[t].used.None? && db.tokens[t].expires > now
    then Some(db.(tokens := db.tokens[t := db.tokens[t].(used := Some(now))]))
    else None
  }

  /** The hash is unique and the user is a foreign key. */
  function Create(db: Db, t: Token, r: Row): Option<Db> {
    if t in db.tokens || r.user !in db.users then None
    else Some(db.(tokens := db.tokens[t := r]))
  }

  function WithoutFamily(db: Db, f: Family): Db {
    db.(tokens := map t | t in db.tokens && db.tokens[t].family != f :: db.tokens[t])
  }

  function WithoutUser(db: Db, u: User): Db {
    db.(tokens := map t | t in db.tokens && db.tokens[t].user != u :: db.tokens[t])
  }

  function Bumped(db: Db, u: User): Option<Db> {
    if u !in db.users then None
    else Some(db.(users := db.users[u := db.users[u].(version := db.users[u].version + 1)]))
  }

  /** The condition of the cleanup statement, for spent rows kept `keep` after their use. */
  predicate Swept(r: Row, now: Time, keep: int) {
    r.expires < now || (r.used.Some? && r.used.value < now - keep)
  }

  function Sweep(db: Db, now: Time): Db {
    db.(tokens := map t | t in db.tokens && !Swept(db.tokens[t], now, LIFETIME) :: db.tokens[t])
  }

  // ---------- operations ----------

  datatype Decision = Refused | Replayed(family: Family, user: User) | Rotating

  /** What RefreshToken decides from the row it reads, before any transaction. */
  function Decide(db: Db, t: Token, now: Time): Decision {
    if t == "" || t !in db.tokens then Refused
    else
      var r := db.tokens[t];
      if now > r.expires then Refused
      else if r.used.Some? then Replayed(r.family, r.user)
      else Rotating
  }

  /** `ok` is false when entropy, the insert, the signature or the commit fails. */
  function Rotate(db: Db, t: Token, next: Token, now: Time, ok: bool): Result<(Db, Access), Error> {
    var consumed := Consume(db, t, now);
    if consumed.None? then Err(InvalidRefreshToken)
    else
      var r := db.tokens[t];
      if r.user !in db.users then Err(Failed)
      else if !db.users[r.user].active then Err(UserNotActive)
      else
        var created := Create(consumed.value, next, NewRow(r.user, r.family, now));
        if created.None? || !ok then Err(Failed)
        else Ok((created.value, Access(r.user, db.users[r.user].version)))
  }

  /** The transaction of handleReplay. */
  function Kill(db: Db, f: Family, u: User, ok: bool): Result<Db, Error> {
    var bumped := Bumped(WithoutFamily(db, f), u);
    if bumped.None? || !ok then Err(Failed) else Ok(bumped.value)
  }

  /** The transaction of RevokeAllSessions. */
  function RevokeAll(db: Db, u: User, ok: bool): Result<Db, Error> {
    var bumped := Bumped(WithoutUser(db, u), u);
    if bumped.None? || !ok then Err(Failed) else Ok(bumped.value)
  }

  /** The rule of the middleware: the claimed version is the stored one. */
  predicate Accepts(db: Db, a: Access) {
    a.user in db.users && db.users[a.user].version == a.version
  }

  // ---------- the store ----------

  class Store {
    var tokens: map<Token, Row>
    var users: map<User, Account>

    ghost function Contents(): Db
      reads this
    {
      Db(tokens, users)
    }

    constructor (users: map<User, Account>)
      ensures Contents() == Db(map[], users)
    {
      this.tokens, this.users := map[], users;
    }

    method ConsumeRefreshToken(t: Token, now: Time) returns (row: Option<Row>)
      modifies this`tokens
      ensures var r := Consume(old(Contents()), t, now);
              if r.None? then row == None && tokens == old(tokens)
              else row == Some(old(tokens)[t].(used := Some(now))) && Contents() == r.value
    {
      if t !in tokens || tokens[t].used.Some? || tokens[t].expires <= now { return None; }
      tokens := tokens[t := tokens[t].(used := Some(now))];
      return Some(tokens[t]);
    }

    method CreateRefreshToken(t: Token, r: Row) returns (ok: bool)
      modifies this`tokens
      ensures var c := Create(old(Contents()), t, r);
              ok == c.Some? && Contents() == if ok then c.value else old(Contents())
    {
      if t in tokens || r.user !in users { return false; }
      tokens := tokens[t := r];
      return true;
    }

    method DeleteRefreshTokenFamily(f: Family)
      modifies this`tokens
      ensures Contents() == WithoutFamily(old(Contents()), f)
    {
      tokens := map t | t in tokens && tokens[t].family != f :: tokens[t];
    }

    method DeleteUserRefreshTokens(u: User)
      modifies this`tokens
      ensures Contents() == WithoutUser(old(Contents()), u)
    {
      tokens := map t | t in tokens && tokens[t].user != u :: tokens[t];
    }

    method IncrementUserTokenVersion(u: User) returns (ok: bool)
      modifies this`users
      ensures var b := Bumped(old(Contents()), u);
              ok == b.Some? && Contents() == if ok then b.value else old(Contents())
    {
      if u !in users { return false; }
      users := users[u := users[u].(version := users[u].version + 1)];
      return true;
    }

    method DeleteExpiredAndSpentRefreshTokens(now: Time)
      modifies this`tokens
      ensures Contents() == Sweep(old(Contents()), now)
    {
      tokens := map t | t in tokens && !Swept(tokens[t], now, LIFETIME) :: tokens[t];
    }

    /** The body that RefreshToken hands to RunTx: it may leave the tables half changed. */
    method RotateBody(t: Token, next: Token, now: Time, signed: bool)
      returns (r: Result<Access, Error>)
      modifies this`tokens
      ensures var spec := Rotate(old(Contents()), t, next, now, signed);
              if spec.Ok? then r == Ok(spec.value.1) && Contents() == spec.value.0
              else r == Err(spec.error)
      ensures users == old(users)
    {
      var consumed := ConsumeRefreshToken(t, now);
      if consumed.None? { return Err(InvalidRefreshToken); }
      var row := consumed.value;
      if row.user !in users { return Err(Failed); }
      if !users[row.user].active { return Err(UserNotActive); }
      var created := CreateRefreshToken(next, NewRow(row.user, row.family, now));
      if !created || !signed { return Err(Failed); }
      return Ok(Access(row.user, users[row.user].version));
    }

    /**
      The transaction of RefreshToken. Whatever fails, nothing has happened: the old token is
      still unspent and no successor exists.
     */
    method RotateTx(t: Token, next: Token, now: Time, signed: bool, commits: bool)
      returns (r: Result<Access, Error>)
      modifies this
      ensures var spec := Rotate(old(Contents()), t, next, now, signed && commits);
              if spec.Ok? then r == Ok(spec.value.1) && Contents() == spec.value.0
              else r.Err? && (commits ==> r.error == spec.error) && Contents() == old(Contents())
    {
      var was, wasUsers := tokens, users;
      r := RotateBody(t, next, now, signed);
      if r.Err? || !commits {
        tokens, users := was, wasUsers;
        if r.Ok? { r := Err(Failed); }
      }
    }

    method KillTx(f: Family, u: User, commits: bool) returns (revoked: bool)
      modifies this
      ensures var spec := Kill(old(Contents()), f, u, commits);
              revoked == spec.Ok? && Contents() == if revoked then spec.value else old(Contents())
    {
      var was, wasUsers := tokens, users;
      DeleteRefreshTokenFamily(f);
      revoked := IncrementUserTokenVersion(u);
      if !revoked || !commits {
        tokens, users := was, wasUsers;
        revoked := false;
      }
    }

    method RevokeAllTx(u: User, commits: bool) returns (revoked: bool)
      modifies this
      ensures var spec := RevokeAll(old(Contents()), u, commits);
              revoked == spec.Ok? && Contents() == if revoked then spec.value else old(Contents())
    {
      var was, wasUsers := tokens, users;
      DeleteUserRefreshTokens(u);
      revoked := IncrementUserTokenVersion(u);
      if !revoked || !commits {
        tokens, users := was, wasUsers;
        revoked := false;
      }
    }

    method RevokeRefreshToken(t: Token)
      modifies this`tokens
      ensures tokens == if t == "" then old(tokens) else old(tokens) - {t}
    {
      if t == "" { return; }
      tokens := tokens - {t};
    }

    /**
      RefreshToken with nothing between its read and its transaction; Rotation.dfy lets other
      calls run in between.
     */
    method RefreshToken(t: Token, next: Token, now: Time, signed: bool, commits: bool)
      returns (r: Result<Access, Error>)
      modifies this
      ensures var d := Decide(old(Contents()), t, now);
              match d
              case Refused => r == Err(InvalidRefreshToken) && Contents() == old(Contents())
              case Replayed(f, u) =>
                (var k := Kill(old(Contents()), f, u, commits);
                 && r == Err(InvalidRefreshToken)
                 && Contents() == if k.Ok? then k.value else old(Contents()))
              case Rotating =>
                (var spec := Rotate(old(Contents()), t, next, now, signed && commits);
                 if spec.Ok? then r == Ok(spec.value.1) && Contents() == spec.value.0
                 else r.Err? && Contents() == old(Contents()))
      ensures r.Ok? <==>
                && signed && commits && t != "" && t in old(tokens) && next !in old(tokens)
                && old(tokens)[t].used.None? && now < old(tokens)[t].expires
                && old(tokens)[t].user in old(users) && old(users)[old(tokens)[t].user].active
    {
      if t == "" || t !in tokens { return Err(InvalidRefreshToken); }
      var existing := tokens[t];
      if now > existing.expires { return Err(InvalidRefreshToken); }
      if existing.used.Some? {
        var revoked := KillTx(existing.family, existing.user, commits);
        return Err(InvalidRefreshToken);
      }
      r := RotateTx(t, next, now, signed, commits);
    }
  }

  // ---------- what the operations mean ----------

  /**
    A rotation succeeds exactly for an unspent, unexpired token of an active user; it then spends
    that token, adds one unspent token of the same family and user, touches no other row and mints
    an access token that is accepted.
   */
  lemma RotateMeans(db: Db, t: Token, next: Token, now: Time, ok: bool)
    ensures var r := Rotate(db, t, next, now, ok);
            && (r.Ok? <==>
                  && ok && t in db.tokens && next !in db.tokens
                  && db.tokens[t].used.None? && now < db.tokens[t].expires
                  && db.tokens[t].user in db.users && db.users[db.tokens[t].user].active)
            && (r.Ok? ==>
                  var d := r.value.0;
                  && d.users == db.users && d.tokens.Keys == db.tokens.Keys + {next}
                  && d.tokens[t] == db.tokens[t].(used := Some(now))
                  && d.tokens[next] == Row(db.tokens[t].user, db.tokens[t].family, None, now,
                                           now + 30 * 24 * 3600)
                  && (forall x :: x in db.tokens && x != t ==> d.tokens[x] == db.tokens[x])
                  && Accepts(d, r.value.1))
  {
  }

  /** The rows of one kind are gone and no other row has changed. */
  ghost predicate Only(rows: map<Token, Row>, rows': map<Token, Row>, gone: set<Token>) {
    && rows'.Keys == rows.Keys - gone
    && forall t :: t in rows' ==> rows'[t] == rows[t]
  }

  /** One user's version is one higher; no account is added, lost or otherwise changed. */
  ghost predicate OneBump(users: map<User, Account>, users': map<User, Account>, u: User) {
    && u in users && users'.Keys == users.Keys
    && users'[u] == Account(users[u].active, users[u].version + 1)
    && forall x :: x in users && x != u ==> users'[x] == users[x]
  }

  /** Revoking all sessions deletes every row of the user, no other row, and bumps that user. */
  lemma RevokeAllMeans(db: Db, u: User, ok: bool)
    ensures var r := RevokeAll(db, u, ok);
            && (r.Ok? <==> ok && u in db.users)
            && (r.Ok? ==>
                  && OneBump(db.users, r.value.users, u)
                  && Only(db.tokens, r.value.tokens, set t | t in db.tokens && db.tokens[t].user == u))
  {
  }

  /** A replay deletes every row of the family, no other row, and bumps its user. */
  lemma KillMeans(db: Db, f: Family, u: User, ok: bool)
    ensures var r := Kill(db, f, u, ok);
            && (r.Ok? <==> ok && u in db.users)
            && (r.Ok? ==>
                  && OneBump(db.users, r.value.users, u)
                  && Only(db.tokens, r.value.tokens, set t | t in db.tokens && db.tokens[t].family == f))
  {
  }

  /** The cleanup deletes the expired rows and those spent thirty days ago, and no other row. */
  lemma SweepMeans(db: Db, now: Time)
    ensures Sweep(db, now).users == db.users
    ensures Only(db.tokens, Sweep(db, now).tokens,
                 set t | t in db.tokens &&
                         (db.tokens[t].expires < now
                          || (db.tokens[t].used.Some? && db.tokens[t].used.value < now - 30 * 24 * 3600)))
  {
  }

  /** A row as the statements write it: thirty days of life, used only after its creation. */
  predicate Dated(r: Row, now: Time) {
    && r.expires == r.created + LIFETIME && r.created <= now
    && (r.used.Some? ==> r.created <= r.used.value <= now)
  }

  /** The cleanup of a dated row asks for nothing but its expiry. */
  lemma SweptIsExpired(r: Row, now: Time, at: Time)
    requires Dated(r, at)
    ensures Swept(r, now, LIFETIME) <==> r.expires < now
  {
  }

  /**
    The cleanup spares every unexpired row exactly when it keeps spent rows for at least a
    lifetime. With the thirty days of both constants it does.
   */
  lemma SweepSparesIff(keep: int)
    ensures (forall r, now :: Dated(r, now) && Swept(r, now, keep) ==> r.expires < now)
            <==> keep >= LIFETIME
  {
    if keep < LIFETIME {
      var r := Row("u", "f", Some(0), 0, LIFETIME);
      var now := if keep < 0 then 0 else keep + 1;
      assert Dated(r, now) && Swept(r, now, keep) && r.expires >= now;
    }
  }
}
