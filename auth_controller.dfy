/** The session state machine: `login` issues a pair of tokens and records
    the refresh token on the user's row, `refresh` trades the recorded
    refresh token for a new access token, `logout` clears it, and
    `obtenerPerfil` returns the caller's own projection. Each handler is a
    function of the user table (the specification) and a method on the
    table that is proved to follow it. */
module AuthController {
  import opened Common
  import opened Crypto
  import opened Tables
  import opened UsuarioModel

  /** `expiresIn: '1h'`, in seconds. */
  const AccessTtl: int := 60 * 60
  /** `expiresIn: '7d'`, in seconds. */
  const RefreshTtl: int := 7 * 24 * 60 * 60

  /** `generarAccessToken`: `{ id, username, rol }`, one hour. */
  function GenerarAccessToken(id: int, u: User, now: int, c: Primitives): (t: string)
    ensures c.Sound() ==> t != "" && ' ' !in t
    ensures c.Sound() ==> c.verify(t, now) == Valid(Claims(id, u.username, Some(RolName(u.rol))))
    ensures c.Sound() ==> c.verify(t, now + AccessTtl) == Expired
  {
    c.sign(Claims(id, u.username, Some(RolName(u.rol))), now, AccessTtl)
  }

  /** `generarRefreshToken`: `{ id, username }`, seven days. */
  function GenerarRefreshToken(id: int, u: User, now: int, c: Primitives): (t: string)
    ensures c.Sound() ==> t != "" && ' ' !in t
    ensures c.Sound() ==> c.verify(t, now) == Valid(Claims(id, u.username, None))
    ensures c.Sound() ==> c.verify(t, now + RefreshTtl) == Expired
  {
    c.sign(Claims(id, u.username, None), now, RefreshTtl)
  }

  /** The access token verifies to `{id, username, rol}` for 3600 seconds and
      the refresh token to `{id, username}` for 604800 seconds; both are
      expired from then on. */
  lemma TokenContents(id: int, u: User, now: int, t: int, c: Primitives)
    requires c.Sound()
    ensures c.verify(GenerarAccessToken(id, u, now, c), t) ==
      if t < now + 3600 then Valid(Claims(id, u.username, Some(RolName(u.rol)))) else Expired
    ensures c.verify(GenerarRefreshToken(id, u, now, c), t) ==
      if t < now + 604800 then Valid(Claims(id, u.username, None)) else Expired
  {
  }

  // ---------------------------------------------------------------------
  // POST /auth/login

  datatype LoginResponse =
    | LoggedIn(usuario: PublicUser, accessToken: string, refreshToken: string)
    | LoginFailed(status: Status)

  datatype LoginStep = LoginStep(response: LoginResponse, rows: map<int, User>)

  function LoginSpec(rows: map<int, User>, username: Json<string>, password: Json<string>,
                     now: int, c: Primitives): (out: LoginStep)
    // missing credentials: 400, nothing changes
    ensures !TruthyString(username) || !TruthyString(password) ==>
      out == LoginStep(LoginFailed(BadRequest), rows)
    // past that check, an unknown username and a wrong password give the
    // one and the same answer, and nothing changes
    ensures TruthyString(username) && TruthyString(password) && out.response.LoginFailed? ==>
      out == LoginStep(LoginFailed(Unauthorized), rows)
    ensures TruthyString(username) && TruthyString(password)
            && (forall id :: id in rows ==> rows[id].username != username.v) ==>
      out == LoginStep(LoginFailed(Unauthorized), rows)
    // success: the tokens are issued for the matching row, and that row's
    // refresh token, and nothing else in the table, is replaced
    ensures out.response.LoggedIn? ==>
      var id := out.response.usuario.id;
      && id in rows
      && rows[id].username == username.v
      && CompararPassword(rows[id], password.v, c)
      && out.response.accessToken == GenerarAccessToken(id, rows[id], now, c)
      && out.response.refreshToken == GenerarRefreshToken(id, rows[id], now, c)
      && out.rows == rows[id := rows[id].(refreshToken := Some(out.response.refreshToken))]
      && out.response.usuario == Project(id, rows[id])
    // with unique usernames, login succeeds exactly for the right password
    ensures UniqueUsernames(rows) ==>
      (out.response.LoggedIn? <==>
        TruthyString(username) && TruthyString(password)
        && exists id :: id in rows && rows[id].username == username.v
                        && CompararPassword(rows[id], password.v, c))
  {
    if !TruthyString(username) || !TruthyString(password) then
      LoginStep(LoginFailed(BadRequest), rows)
    else
      match FindByUsername(rows, username.v)
      case None => LoginStep(LoginFailed(Unauthorized), rows)
      case Some(id) =>
        if !CompararPassword(rows[id], password.v, c) then
          LoginStep(LoginFailed(Unauthorized), rows)
        else
          var accessToken := GenerarAccessToken(id, rows[id], now, c);
          var refreshToken := GenerarRefreshToken(id, rows[id], now, c);
          TokenAndImageUpdatesKeepHash(rows[id], Some(refreshToken), "", c);
          match ApplyChanges(rows[id], NoChanges.(refreshToken := Some(Some(refreshToken))), c)
          case Failure(_) => LoginStep(LoginFailed(InternalError), rows)
          case Success(u) => LoginStep(LoggedIn(Project(id, u), accessToken, refreshToken), rows[id := u])
  }

  method Login(users: Table<User>, username: Json<string>, password: Json<string>,
               now: int, c: Primitives) returns (r: LoginResponse)
    requires users.Valid()
    modifies users
    ensures users.Valid() && users.nextId == old(users.nextId)
    ensures LoginStep(r, users.rows) == LoginSpec(old(users.rows), username, password, now, c)
  {
    if !TruthyString(username) || !TruthyString(password) {
      return LoginFailed(BadRequest);
    }
    var found := FindByUsername(users.rows, username.v);
    if found.None? {
      return LoginFailed(Unauthorized);
    }
    var id := found.value;
    var usuario := users.rows[id];
    if !CompararPassword(usuario, password.v, c) {
      return LoginFailed(Unauthorized);
    }
    var accessToken := GenerarAccessToken(id, usuario, now, c);
    var refreshToken := GenerarRefreshToken(id, usuario, now, c);
    var saved := Save(users, id, NoChanges.(refreshToken := Some(Some(refreshToken))), c);
    if saved.Failure? {
      return LoginFailed(InternalError);
    }
    r := LoggedIn(Project(id, saved.value), accessToken, refreshToken);
  }

  // ---------------------------------------------------------------------
  // POST /auth/refresh

  datatype RefreshResponse = Refreshed(accessToken: string) | RefreshFailed(status: Status)

  /** The row a refresh token is good for: its payload's user, provided that
      user's recorded refresh token is exactly this token. */
  ghost predicate Honoured(rows: map<int, User>, token: string, now: int, c: Primitives) {
    && c.verify(token, now).Valid?
    && c.verify(token, now).claims.id in rows
    && rows[c.verify(token, now).claims.id].refreshToken == Some(token)
  }

  function RefreshSpec(rows: map<int, User>, token: Json<string>, now: int, c: Primitives): (r: RefreshResponse)
    ensures !TruthyString(token) ==> r == RefreshFailed(BadRequest)
    ensures TruthyString(token) && !c.verify(token.v, now).Valid? ==> r == RefreshFailed(Unauthorized)
    ensures TruthyString(token) && r.RefreshFailed? ==> r == RefreshFailed(Unauthorized)
    // only the recorded token of an existing user is honoured
    ensures r.Refreshed? <==> TruthyString(token) && Honoured(rows, token.v, now, c)
    // the new access token is built from the row as stored now
    ensures r.Refreshed? ==>
      var id := c.verify(token.v, now).claims.id;
      r.accessToken == GenerarAccessToken(id, rows[id], now, c)
  {
    if !TruthyString(token) then RefreshFailed(BadRequest)
    else match c.verify(token.v, now)
      case Expired => RefreshFailed(Unauthorized)
      case Invalid => RefreshFailed(Unauthorized)
      case Valid(claims) =>
        if claims.id !in rows || rows[claims.id].refreshToken != Some(token.v) then
          RefreshFailed(Unauthorized)
        else Refreshed(GenerarAccessToken(claims.id, rows[claims.id], now, c))
  }

  /** `refresh` reads the table and never writes it: no refresh-token rotation. */
  method Refresh(users: Table<User>, token: Json<string>, now: int, c: Primitives) returns (r: RefreshResponse)
    ensures r == RefreshSpec(users.rows, token, now, c)
  {
    if !TruthyString(token) {
      return RefreshFailed(BadRequest);
    }
    var decoded := c.verify(token.v, now);
    if !decoded.Valid? {
      return RefreshFailed(Unauthorized);
    }
    var id := decoded.claims.id;
    if id !in users.rows || users.rows[id].refreshToken != Some(token.v) {
      return RefreshFailed(Unauthorized);
    }
    r := Refreshed(GenerarAccessToken(id, users.rows[id], now, c));
  }

  // ---------------------------------------------------------------------
  // POST /auth/logout (behind the token gate: `actorId` is the caller)

  function LogoutSpec(rows: map<int, User>, actorId: int, c: Primitives): (rows': map<int, User>)
    ensures actorId in rows ==> rows' == rows[actorId := rows[actorId].(refreshToken := None)]
    ensures actorId !in rows ==> rows' == rows
  {
    if actorId !in rows then rows
    else match ApplyChanges(rows[actorId], NoChanges.(refreshToken := Some(None)), c)
      case Failure(_) => rows
      case Success(u) => rows[actorId := u]
  }

  /** Logout answers 200 in every case. */
  method Logout(users: Table<User>, actorId: int, c: Primitives) returns (status: Status)
    requires users.Valid()
    modifies users
    ensures users.Valid() && users.nextId == old(users.nextId)
    ensures status == Ok
    ensures users.rows == LogoutSpec(old(users.rows), actorId, c)
  {
    if actorId in users.rows {
      var _ := Save(users, actorId, NoChanges.(refreshToken := Some(None)), c);
    }
    status := Ok;
  }

  /** Logging out twice is the same as logging out once. */
  lemma LogoutIdempotent(rows: map<int, User>, actorId: int, c: Primitives)
    ensures LogoutSpec(LogoutSpec(rows, actorId, c), actorId, c) == LogoutSpec(rows, actorId, c)
  {
  }

  // ---------------------------------------------------------------------
  // GET /auth/me (behind the token gate)

  function ObtenerPerfilSpec(rows: map<int, User>, actorId: int): (r: Result<PublicUser>)
    ensures r.Failure? <==> actorId !in rows
    ensures r.Failure? ==> r.status == NotFound
    ensures r.Success? ==> r.value == Project(actorId, rows[actorId])
  {
    if actorId !in rows then Failure(NotFound) else Success(Project(actorId, rows[actorId]))
  }

  method ObtenerPerfil(users: Table<User>, actorId: int) returns (r: Result<PublicUser>)
    ensures r == ObtenerPerfilSpec(users.rows, actorId)
  {
    if actorId !in users.rows {
      return Failure(NotFound);
    }
    r := Success(Project(actorId, users.rows[actorId]));
  }

  // ---------------------------------------------------------------------
  // The session properties, across several calls.

  /** A fresh login's refresh token is honoured until it expires. */
  lemma LoginThenRefresh(rows: map<int, User>, username: Json<string>, password: Json<string>,
                         now: int, t: int, c: Primitives)
    requires c.Sound()
    requires LoginSpec(rows, username, password, now, c).response.LoggedIn?
    requires now <= t < now + RefreshTtl
    ensures
      var s := LoginSpec(rows, username, password, now, c);
      var id := s.response.usuario.id;
      RefreshSpec(s.rows, Val(s.response.refreshToken), t, c)
        == Refreshed(GenerarAccessToken(id, s.rows[id], t, c))
  {
    var s := LoginSpec(rows, username, password, now, c);
    var id := s.response.usuario.id;
    TokenContents(id, rows[id], now, t, c);
  }

  /** A refresh token issued for a user is refused, expired or not, once it
      is no longer the token recorded on that user's row. */
  lemma StaleTokenRejected(rows: map<int, User>, id: int, u: User, now: int, t: int, c: Primitives)
    requires c.Sound()
    requires id in rows ==> rows[id].refreshToken != Some(GenerarRefreshToken(id, u, now, c))
    ensures RefreshSpec(rows, Val(GenerarRefreshToken(id, u, now, c)), t, c) == RefreshFailed(Unauthorized)
  {
    TokenContents(id, u, now, t, c);
  }

  /** Two logins of the same username against a table with unique
      usernames pick the same row, as long as the first kept the username. */
  lemma SameRowFound(rows: map<int, User>, id1: int, u: User, id2: int)
    requires UniqueUsernames(rows) && id1 in rows && u.username == rows[id1].username
    requires id2 in rows[id1 := u] && rows[id1 := u][id2].username == rows[id1].username
    ensures id2 == id1
  {
  }

  /** A second login of the same user makes the first refresh token stale:
      it is refused although it has not expired. The tokens must differ,
      which `jwt.sign` does not promise within one second. */
  lemma SecondLoginInvalidatesFirst(rows: map<int, User>, username: Json<string>,
                                    p1: Json<string>, p2: Json<string>,
                                    now1: int, now2: int, t: int, c: Primitives)
    requires c.Sound() && UniqueUsernames(rows)
    requires LoginSpec(rows, username, p1, now1, c).response.LoggedIn?
    requires
      var s1 := LoginSpec(rows, username, p1, now1, c);
      var s2 := LoginSpec(s1.rows, username, p2, now2, c);
      s2.response.LoggedIn? && s2.response.refreshToken != s1.response.refreshToken
    ensures
      var s1 := LoginSpec(rows, username, p1, now1, c);
      var s2 := LoginSpec(s1.rows, username, p2, now2, c);
      RefreshSpec(s2.rows, Val(s1.response.refreshToken), t, c) == RefreshFailed(Unauthorized)
  {
    var s1 := LoginSpec(rows, username, p1, now1, c);
    var id1, t1 := s1.response.usuario.id, s1.response.refreshToken;
    var u1 := rows[id1].(refreshToken := Some(t1));
    assert s1.rows == rows[id1 := u1];
    var s2 := LoginSpec(rows[id1 := u1], username, p2, now2, c);
    SameRowFound(rows, id1, u1, s2.response.usuario.id);
    StaleTokenRejected(s2.rows, id1, rows[id1], now1, t, c);
  }

  /** After logout no token naming the user is honoured. */
  lemma LogoutRevokes(rows: map<int, User>, actorId: int, token: Json<string>, t: int, c: Primitives)
    requires TruthyString(token)
    requires c.verify(token.v, t).Valid? ==> c.verify(token.v, t).claims.id == actorId
    ensures RefreshSpec(LogoutSpec(rows, actorId, c), token, t, c) == RefreshFailed(Unauthorized)
  {
  }

  /** Login, logout, refresh with the login's token: refused. */
  lemma LoginLogoutRefresh(rows: map<int, User>, username: Json<string>, password: Json<string>,
                           now: int, t: int, c: Primitives)
    requires c.Sound()
    requires LoginSpec(rows, username, password, now, c).response.LoggedIn?
    ensures
      var s := LoginSpec(rows, username, password, now, c);
      var rows' := LogoutSpec(s.rows, s.response.usuario.id, c);
      RefreshSpec(rows', Val(s.response.refreshToken), t, c) == RefreshFailed(Unauthorized)
  {
    var s := LoginSpec(rows, username, password, now, c);
    var id, tok := s.response.usuario.id, s.response.refreshToken;
    assert tok == GenerarRefreshToken(id, rows[id], now, c);
    TokenContents(id, rows[id], now, t, c);
    LogoutRevokes(s.rows, id, Val(tok), t, c);
  }

  /** Login changes nothing but the refresh-token column. */
  lemma LoginPreservesWellFormed(rows: map<int, User>, username: Json<string>, password: Json<string>,
                                 now: int, c: Primitives)
    requires WellFormed(rows)
    ensures WellFormed(LoginSpec(rows, username, password, now, c).rows)
  {
    var s := LoginSpec(rows, username, password, now, c);
    if s.response.LoggedIn? {
      var id := s.response.usuario.id;
      SameIdentityKeepsWellFormed(rows, id, rows[id].(refreshToken := Some(s.response.refreshToken)));
    }
  }
}
