/** The two Express middlewares in front of the protected routes:
    `verificarToken`, which turns an `Authorization: Bearer <token>` header
    into the caller's identity, and `verificarRol`, which admits a fixed
    list of roles. */
module AuthMiddleware {
  import opened Common
  import opened Crypto
  import opened Tables
  import opened UsuarioModel

  /** Why the token gate answered 401; each is a distinct response body. */
  datatype Rejection = NoToken | BadFormat | TokenExpired | TokenInvalid | UnknownUser

  /** The gate either calls `next()` with `req.usuario` set, or stops. */
  datatype Gate = Next(usuario: PublicUser) | Halt(status: Status, reason: Rejection)

  /** `authHeader.split(' ')` must give exactly two pieces, the first of
      them "Bearer"; the second is the token. */
  function BearerToken(header: string): (r: Option<string>)
    ensures r.Some? ==> ' ' !in r.value
  {
    var parts := Split(header, ' ');
    if |parts| != 2 || parts[0] != "Bearer" then None else Some(parts[1])
  }

  /** The header is accepted exactly when it is "Bearer", one space, and a
      token with no further space; a doubled space, a trailing space, or a
      lower-case "bearer" is a format error. */
  lemma BearerTokenExact(header: string, token: string)
    ensures BearerToken(header) == Some(token) <==> header == "Bearer " + token && ' ' !in token
  {
    var parts := ["Bearer", token];
    assert Join(parts, ' ') == "Bearer " + token by {
      assert parts[1..] == [token];
    }
    if BearerToken(header) == Some(token) {
      JoinSplit(header, ' ');
      assert Split(header, ' ') == parts;
    }
    if header == "Bearer " + token && ' ' !in token {
      assert forall i :: 0 <= i < |parts| ==> ' ' !in parts[i] by {
        assert ' ' !in parts[0];
      }
      SplitJoin(parts, ' ');
    }
  }

  /** `verificarToken` as a function of the user table, the raw header (if
      any) and the clock. */
  function VerificarTokenSpec(rows: map<int, User>, header: Option<string>, now: int, c: Primitives): (g: Gate)
    // every refusal is a 401
    ensures g.Halt? ==> g.status == Unauthorized
    ensures g == Halt(Unauthorized, NoToken) <==> header.None? || header.value == ""
    ensures g == Halt(Unauthorized, BadFormat) <==>
      header.Some? && header.value != "" && BearerToken(header.value).None?
    // an expired token and a bad one are told apart
    ensures header.Some? && BearerToken(header.value).Some? ==>
      (c.verify(BearerToken(header.value).value, now).Expired? <==> g == Halt(Unauthorized, TokenExpired))
    ensures header.Some? && BearerToken(header.value).Some? ==>
      (c.verify(BearerToken(header.value).value, now).Invalid? <==> g == Halt(Unauthorized, TokenInvalid))
    // a valid token for a user that no longer exists
    ensures g == Halt(Unauthorized, UnknownUser) <==>
      && header.Some? && BearerToken(header.value).Some?
      && c.verify(BearerToken(header.value).value, now).Valid?
      && c.verify(BearerToken(header.value).value, now).claims.id !in rows
    // a valid token of a stored user gets through
    ensures g.Next? <==>
      && header.Some? && header.value != "" && BearerToken(header.value).Some?
      && c.verify(BearerToken(header.value).value, now).Valid?
      && c.verify(BearerToken(header.value).value, now).claims.id in rows
    // the identity is the stored row's projection, not the token's claims
    ensures g.Next? ==>
      && header.Some? && BearerToken(header.value).Some?
      && c.verify(BearerToken(header.value).value, now).Valid?
      && var id := c.verify(BearerToken(header.value).value, now).claims.id;
         id in rows && g.usuario == Project(id, rows[id])
  {
    if header.None? || header.value == "" then Halt(Unauthorized, NoToken)
    else match BearerToken(header.value)
      case None => Halt(Unauthorized, BadFormat)
      case Some(token) =>
        match c.verify(token, now)
        case Expired => Halt(Unauthorized, TokenExpired)
        case Invalid => Halt(Unauthorized, TokenInvalid)
        case Valid(claims) =>
          if claims.id !in rows then Halt(Unauthorized, UnknownUser)
          else Next(Project(claims.id, rows[claims.id]))
  }

  /** `verificarToken` reads the table and never writes it. */
  method VerificarToken(users: Table<User>, header: Option<string>, now: int, c: Primitives) returns (g: Gate)
    ensures g == VerificarTokenSpec(users.rows, header, now, c)
  {
    if header.None? || header.value == "" {
      return Halt(Unauthorized, NoToken);
    }
    var parts := Split(header.value, ' ');
    if |parts| != 2 || parts[0] != "Bearer" {
      return Halt(Unauthorized, BadFormat);
    }
    var decoded := c.verify(parts[1], now);
    if decoded.Expired? {
      return Halt(Unauthorized, TokenExpired);
    }
    if decoded.Invalid? {
      return Halt(Unauthorized, TokenInvalid);
    }
    var id := decoded.claims.id;
    if id !in users.rows {
      return Halt(Unauthorized, UnknownUser);
    }
    g := Next(Project(id, users.rows[id]));
  }

  /** A signed token presented as "Bearer <token>" admits its user while it
      is fresh and is refused as expired afterwards, whatever role (if any)
      it carries. */
  lemma {:induction false} SignedTokenAdmitted(rows: map<int, User>, claims: Claims, iat: int, ttl: int,
                                              t: int, c: Primitives)
    requires c.Sound()
    ensures
      var g := VerificarTokenSpec(rows, Some("Bearer " + c.sign(claims, iat, ttl)), t, c);
      && (t < iat + ttl && claims.id in rows ==> g == Next(Project(claims.id, rows[claims.id])))
      && (t < iat + ttl && claims.id !in rows ==> g == Halt(Unauthorized, UnknownUser))
      && (iat + ttl <= t ==> g == Halt(Unauthorized, TokenExpired))
  {
    var token := c.sign(claims, iat, ttl);
    BearerTokenExact("Bearer " + token, token);
  }

  // ---------------------------------------------------------------------
  // verificarRol(...rolesPermitidos)

  datatype Access = Allow | Deny(status: Status)

  /** The role gate reads only `req.usuario`, set by the token gate. */
  function VerificarRol(allowed: seq<string>, usuario: Option<PublicUser>): (a: Access)
    ensures usuario.None? ==> a == Deny(Unauthorized)
    ensures usuario.Some? ==> (a == Allow <==> RolName(usuario.value.rol) in allowed)
    ensures usuario.Some? && a != Allow ==> a == Deny(Forbidden)
  {
    if usuario.None? then Deny(Unauthorized)
    else if RolName(usuario.value.rol) !in allowed then Deny(Forbidden)
    else Allow
  }

  /** Admitting more roles never turns an admitted caller away. */
  lemma VerificarRolMonotone(allowed: seq<string>, more: seq<string>, usuario: Option<PublicUser>)
    requires forall r :: r in allowed ==> r in more
    ensures VerificarRol(allowed, usuario) == Allow ==> VerificarRol(more, usuario) == Allow
  {
  }

  /** Names outside the ENUM admit nobody: the comparison is exact, so
      "Admin" is not "admin". */
  lemma VerificarRolExact(allowed: seq<string>, usuario: Option<PublicUser>)
    requires forall r :: r in allowed ==> ParseRol(r).None?
    ensures VerificarRol(allowed, usuario) != Allow
  {
    if usuario.Some? {
      ParseRolName(usuario.value.rol);
    }
  }

  /** Behind a passing token gate the role gate never answers 401. */
  lemma GatesCompose(rows: map<int, User>, header: Option<string>, now: int, c: Primitives, allowed: seq<string>)
    requires VerificarTokenSpec(rows, header, now, c).Next?
    ensures
      var u := VerificarTokenSpec(rows, header, now, c).usuario;
      VerificarRol(allowed, Some(u)) != Deny(Unauthorized)
  {
  }
}
