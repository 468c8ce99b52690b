/** Properties of whole sessions, across the token gate and the handlers
    behind it. */
module Sesiones {
  import opened Common
  import opened Crypto
  import opened UsuarioModel
  import opened AuthController
  import opened AuthMiddleware
  import opened UsuariosController

  /** The access token issued by a login opens the gate for one hour, with
      the identity of the row as login left it. */
  lemma LoginOpensGate(rows: map<int, User>, username: Json<string>, password: Json<string>,
                       now: int, t: int, c: Primitives)
    requires c.Sound()
    requires LoginSpec(rows, username, password, now, c).response.LoggedIn?
    requires now <= t
    ensures
      var s := LoginSpec(rows, username, password, now, c);
      var id := s.response.usuario.id;
      var g := VerificarTokenSpec(s.rows, Some("Bearer " + s.response.accessToken), t, c);
      && (t < now + AccessTtl ==> g == Next(s.response.usuario))
      && (now + AccessTtl <= t ==> g == Halt(Unauthorized, TokenExpired))
  {
    var s := LoginSpec(rows, username, password, now, c);
    var id := s.response.usuario.id;
    SignedTokenAdmitted(s.rows, Claims(id, rows[id].username, Some(RolName(rows[id].rol))), now, AccessTtl, t, c);
  }

  /** The gate does not tell the two kinds of token apart: a refresh token
      sent as a bearer token opens it too, for its full seven days. */
  lemma RefreshTokenOpensGate(rows: map<int, User>, username: Json<string>, password: Json<string>,
                              now: int, t: int, c: Primitives)
    requires c.Sound()
    requires LoginSpec(rows, username, password, now, c).response.LoggedIn?
    requires now + AccessTtl <= t < now + RefreshTtl
    ensures
      var s := LoginSpec(rows, username, password, now, c);
      && VerificarTokenSpec(s.rows, Some("Bearer " + s.response.accessToken), t, c).Halt?
      && VerificarTokenSpec(s.rows, Some("Bearer " + s.response.refreshToken), t, c) == Next(s.response.usuario)
  {
    var s := LoginSpec(rows, username, password, now, c);
    var id := s.response.usuario.id;
    SignedTokenAdmitted(s.rows, Claims(id, rows[id].username, Some(RolName(rows[id].rol))), now, AccessTtl, t, c);
    SignedTokenAdmitted(s.rows, Claims(id, rows[id].username, None), now, RefreshTtl, t, c);
  }

  /** Once a user is deleted, every token naming it is refused at the gate
      with 401, and its refresh token is refused too. */
  lemma DeletedUserLockedOut(rows: map<int, User>, actor: PublicUser, id: int, claims: Claims,
                             iat: int, ttl: int, t: int, c: Primitives)
    requires c.Sound()
    requires EliminarUsuarioSpec(rows, actor, id).result.Success?
    requires claims.id == id && t < iat + ttl
    ensures
      var rows' := EliminarUsuarioSpec(rows, actor, id).rows;
      && VerificarTokenSpec(rows', Some("Bearer " + c.sign(claims, iat, ttl)), t, c) == Halt(Unauthorized, UnknownUser)
      && RefreshSpec(rows', Val(c.sign(claims, iat, ttl)), t, c) == RefreshFailed(Unauthorized)
  {
    var rows' := EliminarUsuarioSpec(rows, actor, id).rows;
    SignedTokenAdmitted(rows', claims, iat, ttl, t, c);
  }

  /** A role change made by an admin takes effect on the user's next request
      with the token it already holds: the gate reads the role from the row. */
  lemma RoleChangeSeenAtGate(rows: map<int, User>, admin: PublicUser, id: int, body: Datos,
                             claims: Claims, iat: int, ttl: int, t: int, c: Primitives)
    requires c.Sound()
    requires admin.rol == Admin && TruthyString(body.rol)
    requires ActualizarUsuarioSpec(rows, admin, id, body, c).result.Success?
    requires claims.id == id && t < iat + ttl
    ensures
      var rows' := ActualizarUsuarioSpec(rows, admin, id, body, c).rows;
      var g := VerificarTokenSpec(rows', Some("Bearer " + c.sign(claims, iat, ttl)), t, c);
      g.Next? && Some(g.usuario.rol) == ParseRol(body.rol.v)
  {
    var rows' := ActualizarUsuarioSpec(rows, admin, id, body, c).rows;
    SignedTokenAdmitted(rows', claims, iat, ttl, t, c);
  }

  /** Register, log in with the same credentials, and read the new account
      through the gate with the access token; without a header the same
      request is refused. */
  lemma RegisterLoginRead(rows: map<int, User>, nextId: int, body: Registro, now: int, t: int, c: Primitives)
    requires c.Sound() && WellFormed(rows) && nextId !in rows
    requires CrearUsuarioSpec(rows, nextId, body, c).result.Success?
    requires now <= t < now + AccessTtl
    ensures
      var rows1 := CrearUsuarioSpec(rows, nextId, body, c).rows;
      var s := LoginSpec(rows1, body.username, body.password, now, c);
      && s.response.LoggedIn? && s.response.usuario.id == nextId
      && var g := VerificarTokenSpec(s.rows, Some("Bearer " + s.response.accessToken), t, c);
         && g.Next? && g.usuario.id == nextId
         && ObtenerUsuarioSpec(s.rows, g.usuario, nextId).Success?
         && VerificarTokenSpec(s.rows, None, t, c) == Halt(Unauthorized, NoToken)
  {
    var rows1 := CrearUsuarioSpec(rows, nextId, body, c).rows;
    CrearUsuarioKeepsWellFormed(rows, nextId, body, c);
    var u := rows1[nextId];
    assert CompararPassword(u, body.password.v, c) by {
      assert c.matches(body.password.v, c.hash(body.password.v));
    }
    var s := LoginSpec(rows1, body.username, body.password, now, c);
    assert s.response.LoggedIn?;
    SameRowFound(rows1, nextId, u, s.response.usuario.id);
    LoginOpensGate(rows1, body.username, body.password, now, t, c);
  }
}
