/** The `/usuarios` handlers: open registration, and read, update, delete
    and profile-picture upload behind the token gate, where the caller
    (`req.usuario`) acts on its own row or, as an admin, on any row. */
module UsuariosController {
  import opened Common
  import opened Crypto
  import opened Tables
  import opened UsuarioModel

  /** The ownership rule of read, update and delete: the caller's own id,
      or an admin. */
  predicate MayManage(actor: PublicUser, id: int) {
    actor.id == id || actor.rol == Admin
  }

  /** `buscarUsuarioPorId`: the public projection of a row, or the
      "Usuario no encontrado" error, answered as 404. */
  function BuscarUsuarioPorId(rows: map<int, User>, id: int): (r: Result<PublicUser>)
    ensures r.Success? <==> id in rows
    ensures r.Failure? ==> r.status == NotFound
    ensures r.Success? ==> r.value == Project(id, rows[id])
  {
    if id !in rows then Failure(NotFound) else Success(Project(id, rows[id]))
  }

  // ---------------------------------------------------------------------
  // POST /usuarios

  /** The fields of the registration body. */
  datatype Registro = Registro(username: Json<string>, password: Json<string>,
                               email: Json<string>, rol: Json<string>)

  /** `rol || 'usuario'`. */
  function RolOrDefault(rol: Json<string>): (r: string)
    ensures TruthyString(rol) ==> r == rol.v
    ensures !TruthyString(rol) ==> r == "usuario"
  {
    if TruthyString(rol) then rol.v else "usuario"
  }

  function Registration(body: Registro): NewUser
    requires body.username.Val? && body.password.Val? && body.email.Val?
  {
    NewUser(body.username.v, body.password.v, body.email.v, RolOrDefault(body.rol))
  }

  function CrearUsuarioSpec(rows: map<int, User>, nextId: int, body: Registro, c: Primitives): (out: Step<PublicUser, User>)
    ensures !TruthyString(body.username) || !TruthyString(body.password) || !TruthyString(body.email) ==>
      out == Step(Failure(BadRequest), rows)
    // every refusal is a 400 and leaves the table as it was
    ensures out.result.Failure? ==> out == Step(Failure(BadRequest), rows)
    ensures out.result.Success? <==>
      && TruthyString(body.username) && TruthyString(body.password) && TruthyString(body.email)
      && (forall id :: id in rows ==> rows[id].username != body.username.v)
      && (forall id :: id in rows ==> rows[id].email != body.email.v)
      && NewUserValid(Registration(body))
    // the new row is stored under the next key and answered without secrets
    ensures out.result.Success? ==>
      && nextId in out.rows
      && out.rows == rows[nextId := out.rows[nextId]]
      && out.result.value == Project(nextId, out.rows[nextId])
      && out.rows[nextId].username == body.username.v
      && out.rows[nextId].email == body.email.v
      && out.rows[nextId].password == c.hash(body.password.v)
      && RolName(out.rows[nextId].rol) == RolOrDefault(body.rol)
      && out.rows[nextId].imagenPerfil == None
      && out.rows[nextId].refreshToken == None
  {
    if !TruthyString(body.username) || !TruthyString(body.password) || !TruthyString(body.email) then
      Step(Failure(BadRequest), rows)
    else if FindByUsername(rows, body.username.v).Some? then Step(Failure(BadRequest), rows)
    else if FindByEmail(rows, body.email.v).Some? then Step(Failure(BadRequest), rows)
    else match CreateRow(Registration(body), c)
      case Failure(_) => Step(Failure(BadRequest), rows)
      case Success(u) => Step(Success(Project(nextId, u)), rows[nextId := u])
  }

  method CrearUsuario(users: Table<User>, body: Registro, c: Primitives) returns (r: Result<PublicUser>)
    requires users.Valid()
    modifies users
    ensures users.Valid()
    ensures Step(r, users.rows) == CrearUsuarioSpec(old(users.rows), old(users.nextId), body, c)
    ensures users.nextId == old(users.nextId) + (if r.Success? then 1 else 0)
  {
    if !TruthyString(body.username) || !TruthyString(body.password) || !TruthyString(body.email) {
      return Failure(BadRequest);
    }
    var usernameExiste := FindByUsername(users.rows, body.username.v);
    if usernameExiste.Some? {
      return Failure(BadRequest);
    }
    var emailExiste := FindByEmail(users.rows, body.email.v);
    if emailExiste.Some? {
      return Failure(BadRequest);
    }
    var created := Create(users, Registration(body), c);
    if created.Failure? {
      return Failure(BadRequest);
    }
    r := Success(Project(created.value, users.rows[created.value]));
  }

  /** Registration keeps usernames and emails unique and every stored row
      valid, given that the next key is unused. */
  lemma CrearUsuarioKeepsWellFormed(rows: map<int, User>, nextId: int, body: Registro, c: Primitives)
    requires WellFormed(rows) && nextId !in rows
    ensures WellFormed(CrearUsuarioSpec(rows, nextId, body, c).rows)
  {
    var out := CrearUsuarioSpec(rows, nextId, body, c);
    if out.result.Success? {
      var rows' := out.rows;
      forall i, j | i in rows' && j in rows' && rows'[i].username == rows'[j].username
        ensures i == j
      {
        if i != nextId && j != nextId {
          assert rows[i].username == rows[j].username;
        }
      }
      forall i, j | i in rows' && j in rows' && rows'[i].email == rows'[j].email
        ensures i == j
      {
        if i != nextId && j != nextId {
          assert rows[i].email == rows[j].email;
        }
      }
      forall id | id in rows'
        ensures ValidUsername(rows'[id].username) && IsEmail(rows'[id].email)
      {
        if id != nextId {
          assert rows'[id] == rows[id];
        }
      }
    }
  }

  /** Registration is open, and it takes the role from the body: anyone can
      register an admin account. */
  lemma RegistrationMayChooseAdmin(rows: map<int, User>, nextId: int, body: Registro, c: Primitives)
    requires body.rol == Val("admin")
    requires CrearUsuarioSpec(rows, nextId, body, c).result.Success?
    ensures CrearUsuarioSpec(rows, nextId, body, c).result.value.rol == Admin
  {
    var out := CrearUsuarioSpec(rows, nextId, body, c);
    assert RolName(out.rows[nextId].rol) == "admin";
  }

  // ---------------------------------------------------------------------
  // GET /usuarios/:id

  function ObtenerUsuarioSpec(rows: map<int, User>, actor: PublicUser, id: int): (r: Result<PublicUser>)
    // ownership is checked before existence
    ensures !MayManage(actor, id) ==> r == Failure(Forbidden)
    ensures MayManage(actor, id) && id !in rows ==> r == Failure(NotFound)
    ensures r.Success? <==> MayManage(actor, id) && id in rows
    ensures r.Success? ==> r.value == Project(id, rows[id])
  {
    if !MayManage(actor, id) then Failure(Forbidden) else BuscarUsuarioPorId(rows, id)
  }

  method ObtenerUsuario(users: Table<User>, actor: PublicUser, id: int) returns (r: Result<PublicUser>)
    ensures r == ObtenerUsuarioSpec(users.rows, actor, id)
  {
    if actor.id != id && actor.rol != Admin {
      return Failure(Forbidden);
    }
    r := BuscarUsuarioPorId(users.rows, id);
  }

  // ---------------------------------------------------------------------
  // PUT /usuarios/:id

  /** The fields of the update body. */
  datatype Datos = Datos(username: Json<string>, email: Json<string>,
                         password: Json<string>, rol: Json<string>)

  /** A new username (truthy and different from the row's own) that another
      row already holds. */
  predicate UsernameTaken(rows: map<int, User>, u: User, username: Json<string>) {
    TruthyString(username) && username.v != u.username && FindByUsername(rows, username.v).Some?
  }

  /** The same for the email. */
  predicate EmailTaken(rows: map<int, User>, u: User, email: Json<string>) {
    TruthyString(email) && email.v != u.email && FindByEmail(rows, email.v).Some?
  }

  /** `camposActualizar`: a username or email only when truthy and new, a
      password when truthy, a role only when truthy and the caller is an admin. */
  function Campos(u: User, byAdmin: bool, body: Datos): (ch: Changes)
    ensures ch.username.Some? <==> TruthyString(body.username) && body.username.v != u.username
    ensures ch.email.Some? <==> TruthyString(body.email) && body.email.v != u.email
    ensures ch.password.Some? <==> TruthyString(body.password)
    ensures ch.rol.Some? <==> TruthyString(body.rol) && byAdmin
    ensures ch.imagenPerfil.None? && ch.refreshToken.None?
    // a key that is there holds the body's value
    ensures ch.username.Some? ==> ch.username.value == body.username.v
    ensures ch.email.Some? ==> ch.email.value == body.email.v
    ensures ch.password.Some? ==> ch.password.value == body.password.v
    ensures ch.rol.Some? ==> ch.rol.value == body.rol.v
  {
    Changes(
      if TruthyString(body.username) && body.username.v != u.username then Some(body.username.v) else None,
      if TruthyString(body.email) && body.email.v != u.email then Some(body.email.v) else None,
      if TruthyString(body.password) then Some(body.password.v) else None,
      if TruthyString(body.rol) && byAdmin then Some(body.rol.v) else None,
      None,
      None)
  }

  function ActualizarUsuarioSpec(rows: map<int, User>, actor: PublicUser, id: int, body: Datos,
                                 c: Primitives): (out: Step<PublicUser, User>)
    ensures !MayManage(actor, id) ==> out == Step(Failure(Forbidden), rows)
    ensures MayManage(actor, id) && id !in rows ==> out == Step(Failure(NotFound), rows)
    // a refusal changes nothing; past the two checks above it is a 400
    ensures out.result.Failure? ==> out.rows == rows
    ensures MayManage(actor, id) && id in rows && out.result.Failure? ==> out.result.status == BadRequest
    ensures MayManage(actor, id) && id in rows
            && (UsernameTaken(rows, rows[id], body.username) || EmailTaken(rows, rows[id], body.email)) ==>
      out == Step(Failure(BadRequest), rows)
    // the update happens exactly when every check and every validator passes
    ensures out.result.Success? <==>
      && MayManage(actor, id) && id in rows
      && !UsernameTaken(rows, rows[id], body.username) && !EmailTaken(rows, rows[id], body.email)
      && ChangesValid(rows[id], Campos(rows[id], actor.rol == Admin, body))
    // success rewrites this one row, column by column
    ensures out.result.Success? ==>
      && MayManage(actor, id) && id in rows && id in out.rows
      && out.rows == rows[id := out.rows[id]]
      && out.result.value == Project(id, out.rows[id])
      && out.rows[id].username == (if TruthyString(body.username) then body.username.v else rows[id].username)
      && out.rows[id].email == (if TruthyString(body.email) then body.email.v else rows[id].email)
      && (if TruthyString(body.rol) && actor.rol == Admin then Some(out.rows[id].rol) == ParseRol(body.rol.v)
          else out.rows[id].rol == rows[id].rol)
      && out.rows[id].password ==
           (if TruthyString(body.password) && body.password.v != rows[id].password
            then c.hash(body.password.v) else rows[id].password)
      && out.rows[id].imagenPerfil == rows[id].imagenPerfil
      && out.rows[id].refreshToken == rows[id].refreshToken
  {
    if !MayManage(actor, id) then Step(Failure(Forbidden), rows)
    else if id !in rows then Step(Failure(NotFound), rows)
    else
      var u := rows[id];
      if UsernameTaken(rows, u, body.username) || EmailTaken(rows, u, body.email) then
        Step(Failure(BadRequest), rows)
      else match ApplyChanges(u, Campos(u, actor.rol == Admin, body), c)
        case Failure(_) => Step(Failure(BadRequest), rows)
        case Success(v) => Step(Success(Project(id, v)), rows[id := v])
  }

  /** The duplicate checks and the choice of `camposActualizar`: no changes
      at all when a new username or email is taken. */
  method CamposActualizar(users: Table<User>, usuario: User, byAdmin: bool, body: Datos)
    returns (campos: Option<Changes>)
    ensures campos.None? <==> UsernameTaken(users.rows, usuario, body.username) || EmailTaken(users.rows, usuario, body.email)
    ensures campos.Some? ==> campos.value == Campos(usuario, byAdmin, body)
  {
    var ch := NoChanges;
    if TruthyString(body.username) && body.username.v != usuario.username {
      var usernameExiste := FindByUsername(users.rows, body.username.v);
      if usernameExiste.Some? {
        return None;
      }
      ch := ch.(username := Some(body.username.v));
    }
    if TruthyString(body.email) && body.email.v != usuario.email {
      var emailExiste := FindByEmail(users.rows, body.email.v);
      if emailExiste.Some? {
        return None;
      }
      ch := ch.(email := Some(body.email.v));
    }
    if TruthyString(body.password) {
      ch := ch.(password := Some(body.password.v));
    }
    if TruthyString(body.rol) && byAdmin {
      ch := ch.(rol := Some(body.rol.v));
    }
    campos := Some(ch);
  }

  method ActualizarUsuario(users: Table<User>, actor: PublicUser, id: int, body: Datos, c: Primitives)
    returns (r: Result<PublicUser>)
    requires users.Valid()
    modifies users
    ensures users.Valid() && users.nextId == old(users.nextId)
    ensures Step(r, users.rows) == ActualizarUsuarioSpec(old(users.rows), actor, id, body, c)
  {
    if actor.id != id && actor.rol != Admin {
      return Failure(Forbidden);
    }
    if id !in users.rows {
      return Failure(NotFound);
    }
    var usuario := users.rows[id];
    var campos := CamposActualizar(users, usuario, actor.rol == Admin, body);
    if campos.None? {
      return Failure(BadRequest);
    }
    var saved := Save(users, id, campos.value, c);
    if saved.Failure? {
      return Failure(BadRequest);
    }
    r := Success(Project(id, users.rows[id]));
  }

  /** Only an admin changes a role: whatever a user sends as `rol`, a
      successful update leaves the role as it was. */
  lemma OnlyAdminChangesRol(rows: map<int, User>, actor: PublicUser, id: int, body: Datos, c: Primitives)
    requires actor.rol != Admin
    requires ActualizarUsuarioSpec(rows, actor, id, body, c).result.Success?
    ensures actor.id == id
    ensures ActualizarUsuarioSpec(rows, actor, id, body, c).rows == rows[id := ActualizarUsuarioSpec(rows, actor, id, body, c).rows[id]]
    ensures ActualizarUsuarioSpec(rows, actor, id, body, c).rows[id].rol == rows[id].rol
  {
  }

  /** A password set through an update is the one the row accepts afterwards. */
  lemma UpdatedPasswordAccepted(rows: map<int, User>, actor: PublicUser, id: int, body: Datos, c: Primitives)
    requires c.Sound()
    requires TruthyString(body.password) && id in rows && body.password.v != rows[id].password
    requires ActualizarUsuarioSpec(rows, actor, id, body, c).result.Success?
    ensures CompararPassword(ActualizarUsuarioSpec(rows, actor, id, body, c).rows[id], body.password.v, c)
  {
    assert c.matches(body.password.v, c.hash(body.password.v));
  }

  /** An update keeps usernames and emails unique and every stored row valid. */
  lemma ActualizarUsuarioKeepsWellFormed(rows: map<int, User>, actor: PublicUser, id: int, body: Datos,
                                         c: Primitives)
    requires WellFormed(rows)
    ensures WellFormed(ActualizarUsuarioSpec(rows, actor, id, body, c).rows)
  {
    var out := ActualizarUsuarioSpec(rows, actor, id, body, c);
    if out.result.Success? {
      var u, v := rows[id], out.rows[id];
      var ch := Campos(u, actor.rol == Admin, body);
      assert ApplyChanges(u, ch, c) == Success(v);
      var rows' := out.rows;
      // no other row holds the row's new username or email
      forall k | k in rows && k != id
        ensures rows[k].username != v.username && rows[k].email != v.email
      {
        if v.username == u.username { assert rows[k].username != rows[id].username; }
        if v.email == u.email { assert rows[k].email != rows[id].email; }
      }
      forall i, j | i in rows' && j in rows' && rows'[i].username == rows'[j].username
        ensures i == j
      {
        if i != id && j != id {
          assert rows[i].username == rows[j].username;
        }
      }
      forall i, j | i in rows' && j in rows' && rows'[i].email == rows'[j].email
        ensures i == j
      {
        if i != id && j != id {
          assert rows[i].email == rows[j].email;
        }
      }
      forall k | k in rows'
        ensures ValidUsername(rows'[k].username) && IsEmail(rows'[k].email)
      {
        if k != id {
          assert rows'[k] == rows[k];
        }
      }
    }
  }

  // ---------------------------------------------------------------------
  // DELETE /usuarios/:id

  function EliminarUsuarioSpec(rows: map<int, User>, actor: PublicUser, id: int): (out: Step<(), User>)
    ensures !MayManage(actor, id) ==> out == Step(Failure(Forbidden), rows)
    ensures MayManage(actor, id) && id !in rows ==> out == Step(Failure(NotFound), rows)
    ensures out.result.Success? <==> MayManage(actor, id) && id in rows
    ensures out.result.Success? ==> out.rows == rows - {id}
  {
    if !MayManage(actor, id) then Step(Failure(Forbidden), rows)
    else if id !in rows then Step(Failure(NotFound), rows)
    else Step(Success(()), rows - {id})
  }

  method EliminarUsuario(users: Table<User>, actor: PublicUser, id: int) returns (r: Result<()>)
    requires users.Valid()
    modifies users
    ensures users.Valid() && users.nextId == old(users.nextId)
    ensures Step(r, users.rows) == EliminarUsuarioSpec(old(users.rows), actor, id)
  {
    if actor.id != id && actor.rol != Admin {
      return Failure(Forbidden);
    }
    if id !in users.rows {
      return Failure(NotFound);
    }
    users.Delete(id);
    r := Success(());
  }

  /** Removing a row keeps the table well formed. */
  lemma EliminarUsuarioKeepsWellFormed(rows: map<int, User>, actor: PublicUser, id: int)
    requires WellFormed(rows)
    ensures WellFormed(EliminarUsuarioSpec(rows, actor, id).rows)
  {
    var rows' := EliminarUsuarioSpec(rows, actor, id).rows;
    forall k | k in rows' ensures k in rows && rows'[k] == rows[k] {
    }
  }

  /** A caller who may not manage `id` learns nothing about it: read, update
      and delete answer 403 whatever the table holds. */
  lemma ForbiddenRevealsNothing(rows: map<int, User>, other: map<int, User>, actor: PublicUser, id: int,
                                body: Datos, c: Primitives)
    requires !MayManage(actor, id)
    ensures ObtenerUsuarioSpec(rows, actor, id) == ObtenerUsuarioSpec(other, actor, id)
    ensures ActualizarUsuarioSpec(rows, actor, id, body, c).result
              == ActualizarUsuarioSpec(other, actor, id, body, c).result
    ensures EliminarUsuarioSpec(rows, actor, id).result == EliminarUsuarioSpec(other, actor, id).result
  {
  }

  // ---------------------------------------------------------------------
  // POST /usuarios/:id/imagen

  /** The `imagen` file of the multipart body: the extension of its original
      name (`path.extname`), its MIME type and its size in bytes. */
  datatype Upload = Upload(extension: string, mimetype: string, size: int)

  const MimePermitidos: seq<string> := ["image/jpeg", "image/jpg", "image/png", "image/gif", "image/webp"]

  /** 5 MB. */
  const MaxSize: int := 5 * 1024 * 1024

  function DigitChar(d: nat): (ch: char)
    requires d < 10
    ensures '0' <= ch <= '9'
  {
    ['0', '1', '2', '3', '4', '5', '6', '7', '8', '9'][d]
  }

  /** The decimal rendering of a natural number, as template literals print it. */
  function NatString(n: nat): (s: string)
    ensures |s| >= 1 && (|s| == 1 <==> n < 10)
    ensures forall i :: 0 <= i < |s| ==> '0' <= s[i] <= '9'
    decreases n
  {
    if n < 10 then [DigitChar(n)] else NatString(n / 10) + [DigitChar(n % 10)]
  }

  function IntString(i: int): (s: string)
    ensures |s| >= 1 && (s[0] == '-' <==> i < 0)
    ensures '_' !in s
  {
    if i < 0 then "-" + NatString(-i) else NatString(i)
  }

  lemma DigitCharInjective(a: nat, b: nat)
    requires a < 10 && b < 10 && DigitChar(a) == DigitChar(b)
    ensures a == b
  {
  }

  /** Different numbers print differently. */
  lemma {:induction false} NatStringInjective(a: nat, b: nat)
    requires NatString(a) == NatString(b)
    ensures a == b
    decreases a
  {
    var s := NatString(a);
    if a < 10 && b < 10 {
      DigitCharInjective(a, b);
    } else if a >= 10 && b >= 10 {
      assert s[|s| - 1] == DigitChar(a % 10) && s[|s| - 1] == DigitChar(b % 10);
      DigitCharInjective(a % 10, b % 10);
      assert NatString(a / 10) == s[..|s| - 1] == NatString(b / 10);
      NatStringInjective(a / 10, b / 10);
    }
  }

  /** A leading sign can be taken off both sides. */
  lemma SignedTail(x: string, y: string)
    requires "-" + x == "-" + y
    ensures x == y
  {
    assert x == ("-" + x)[1..];
    assert y == ("-" + y)[1..];
  }

  lemma IntStringInjective(a: int, b: int)
    requires IntString(a) == IntString(b)
    ensures a == b
  {
    if a < 0 && b < 0 {
      SignedTail(NatString(-a), NatString(-b));
      NatStringInjective(-a, -b);
    } else if a >= 0 && b >= 0 {
      NatStringInjective(a, b);
    }
  }

  /** `perfil_${id}_${Date.now()}${extension}`. */
  function NombreArchivo(id: int, nowMs: int, extension: string): string {
    "perfil_" + IntString(id) + "_" + IntString(nowMs) + extension
  }

  lemma {:induction false} SecondField(p: string, d: string, rest: string, sep: char)
    requires sep !in p && sep !in d
    ensures |Split(p + [sep] + d + [sep] + rest, sep)| >= 2
    ensures Split(p + [sep] + d + [sep] + rest, sep)[1] == d
  {
    var tail := d + [sep] + rest;
    assert p + [sep] + d + [sep] + rest == p + [sep] + tail;
    SplitField(p, tail, sep);
    SplitField(d, rest, sep);
  }

  /** Between `perfil_` and the next underscore the file name holds exactly
      the user's id. */
  lemma NombreArchivoId(id: int, nowMs: int, extension: string)
    ensures |Split(NombreArchivo(id, nowMs, extension), '_')| >= 2
    ensures Split(NombreArchivo(id, nowMs, extension), '_')[1] == IntString(id)
  {
    var prefix, d, ms := "perfil", IntString(id), IntString(nowMs);
    var b := "perfil_" + d + "_";
    assert b == prefix + ['_'] + d + ['_'];
    assert NombreArchivo(id, nowMs, extension) == b + ms + extension;
    assert b + ms + extension == b + (ms + extension);
    SecondField(prefix, d, ms + extension, '_');
  }

  /** Two users' pictures never get the same file name, whenever they are
      uploaded and whatever their extensions. */
  lemma NombreArchivoDistinct(id1: int, id2: int, t1: int, t2: int, e1: string, e2: string)
    requires id1 != id2
    ensures NombreArchivo(id1, t1, e1) != NombreArchivo(id2, t2, e2)
  {
    NombreArchivoId(id1, t1, e1);
    NombreArchivoId(id2, t2, e2);
    if NombreArchivo(id1, t1, e1) == NombreArchivo(id2, t2, e2) {
      IntStringInjective(id1, id2);
    }
  }

  function SubirImagenSpec(rows: map<int, User>, actor: PublicUser, id: int, imagen: Option<Upload>,
                           nowMs: int, c: Primitives): (out: Step<string, User>)
    // only the owner, not even an admin
    ensures actor.id != id ==> out == Step(Failure(Forbidden), rows)
    ensures actor.id == id && imagen.None? ==> out == Step(Failure(BadRequest), rows)
    ensures actor.id == id && imagen.Some? && imagen.value.mimetype !in MimePermitidos ==>
      out == Step(Failure(BadRequest), rows)
    ensures actor.id == id && imagen.Some? && imagen.value.size > MaxSize ==>
      out == Step(Failure(BadRequest), rows)
    // the row is looked up only after the file passed its checks
    ensures actor.id == id && imagen.Some? && imagen.value.mimetype in MimePermitidos
            && imagen.value.size <= MaxSize && id !in rows ==>
      out == Step(Failure(NotFound), rows)
    ensures out.result.Failure? ==> out.rows == rows
    ensures out.result.Success? <==>
      actor.id == id && imagen.Some? && imagen.value.mimetype in MimePermitidos
      && imagen.value.size <= MaxSize && id in rows
    // only `imagenPerfil` changes, and the answer is its public URL
    ensures out.result.Success? ==>
      var nombre := NombreArchivo(id, nowMs, imagen.value.extension);
      && out.rows == rows[id := rows[id].(imagenPerfil := Some(nombre))]
      && out.result.value == "/uploads/" + nombre
  {
    if actor.id != id then Step(Failure(Forbidden), rows)
    else if imagen.None? then Step(Failure(BadRequest), rows)
    else if imagen.value.mimetype !in MimePermitidos then Step(Failure(BadRequest), rows)
    else if imagen.value.size > MaxSize then Step(Failure(BadRequest), rows)
    else if id !in rows then Step(Failure(NotFound), rows)
    else
      var nombre := NombreArchivo(id, nowMs, imagen.value.extension);
      match ApplyChanges(rows[id], NoChanges.(imagenPerfil := Some(nombre)), c)
      case Failure(_) => Step(Failure(InternalError), rows)
      case Success(v) => Step(Success("/uploads/" + nombre), rows[id := v])
  }

  method SubirImagenPerfil(users: Table<User>, actor: PublicUser, id: int, imagen: Option<Upload>,
                           nowMs: int, c: Primitives) returns (r: Result<string>)
    requires users.Valid()
    modifies users
    ensures users.Valid() && users.nextId == old(users.nextId)
    ensures Step(r, users.rows) == SubirImagenSpec(old(users.rows), actor, id, imagen, nowMs, c)
  {
    if actor.id != id {
      return Failure(Forbidden);
    }
    if imagen.None? {
      return Failure(BadRequest);
    }
    var file := imagen.value;
    if file.mimetype !in MimePermitidos {
      return Failure(BadRequest);
    }
    if file.size > MaxSize {
      return Failure(BadRequest);
    }
    if id !in users.rows {
      return Failure(NotFound);
    }
    var nombreArchivo := NombreArchivo(id, nowMs, file.extension);
    var saved := Save(users, id, NoChanges.(imagenPerfil := Some(nombreArchivo)), c);
    if saved.Failure? {
      return Failure(InternalError);
    }
    r := Success("/uploads/" + nombreArchivo);
  }

  /** An upload leaves usernames, emails, the password check and the
      session untouched. */
  lemma SubirImagenKeepsIdentity(rows: map<int, User>, actor: PublicUser, id: int, imagen: Option<Upload>,
                                 nowMs: int, pw: string, c: Primitives)
    requires WellFormed(rows)
    requires SubirImagenSpec(rows, actor, id, imagen, nowMs, c).result.Success?
    ensures WellFormed(SubirImagenSpec(rows, actor, id, imagen, nowMs, c).rows)
    ensures CompararPassword(SubirImagenSpec(rows, actor, id, imagen, nowMs, c).rows[id], pw, c)
              == CompararPassword(rows[id], pw, c)
    ensures SubirImagenSpec(rows, actor, id, imagen, nowMs, c).rows[id].refreshToken == rows[id].refreshToken
  {
    var out := SubirImagenSpec(rows, actor, id, imagen, nowMs, c);
    SameIdentityKeepsWellFormed(rows, id, out.rows[id]);
  }
}
