/** The `usuario` model: the row kept per user, the column constraints, the
    public projection handed to clients, the password-hashing hooks that run
    on create and on update, and `compararPassword`. */
module UsuarioModel {
  import opened Common
  import opened Crypto
  import opened Tables

  /** The three values of the `rol` ENUM column. */
  datatype Rol = Admin | Usuario | Veterinario

  function RolName(r: Rol): string {
    match r
    case Admin => "admin"
    case Usuario => "usuario"
    case Veterinario => "veterinario"
  }

  /** The ENUM check on a role name coming from a request. */
  function ParseRol(s: string): (r: Option<Rol>)
    ensures r.Some? <==> s == "admin" || s == "usuario" || s == "veterinario"
    ensures r.Some? ==> RolName(r.value) == s
  {
    if s == "admin" then Some(Admin)
    else if s == "usuario" then Some(Usuario)
    else if s == "veterinario" then Some(Veterinario)
    else None
  }

  /** Every role survives the trip to its column text and back. */
  lemma ParseRolName(r: Rol)
    ensures ParseRol(RolName(r)) == Some(r)
  {
  }

  /** A stored row; `password` holds the bcrypt hash. */
  datatype User = User(
    username: string,
    password: string,
    email: string,
    rol: Rol,
    imagenPerfil: Option<string>,
    refreshToken: Option<string>)

  /** The row as it leaves the server: `password` and `refreshToken` are
      excluded by construction. */
  datatype PublicUser = PublicUser(
    id: int,
    username: string,
    email: string,
    rol: Rol,
    imagenPerfil: Option<string>)

  function Project(id: int, u: User): (p: PublicUser)
    ensures p.id == id && p.username == u.username && p.email == u.email
    ensures p.rol == u.rol && p.imagenPerfil == u.imagenPerfil
  {
    PublicUser(id, u.username, u.email, u.rol, u.imagenPerfil)
  }

  /** The projection does not depend on the secret columns. */
  lemma ProjectIgnoresSecrets(id: int, u: User, pw: string, tok: Option<string>)
    ensures Project(id, u.(password := pw, refreshToken := tok)) == Project(id, u)
  {
  }

  // ---------------------------------------------------------------------
  // Column constraints.

  /** `len: [3, 50]` on `username`. */
  predicate ValidUsername(s: string) { 3 <= |s| <= 50 }

  /** `len: [6, 255]` on the plaintext `password`. */
  predicate ValidPassword(s: string) { 6 <= |s| <= 255 }

  /** `isEmail` on `email`, approximated: no spaces, exactly one `@` with a
      non-empty local part, and a domain of at least two non-empty
      dot-separated labels. */
  predicate IsEmail(s: string) {
    var at := Split(s, '@');
    && ' ' !in s
    && |at| == 2 && at[0] != ""
    && var labels := Split(at[1], '.');
       |labels| >= 2 && forall i :: 0 <= i < |labels| ==> labels[i] != ""
  }

  /** Two rows never share a username (`unique: true`). */
  ghost predicate UniqueUsernames(rows: map<int, User>) {
    forall i, j :: i in rows && j in rows && rows[i].username == rows[j].username ==> i == j
  }

  /** Two rows never share an email (`unique: true`). */
  ghost predicate UniqueEmails(rows: map<int, User>) {
    forall i, j :: i in rows && j in rows && rows[i].email == rows[j].email ==> i == j
  }

  /** What the constraints guarantee of a stored user table. */
  ghost predicate WellFormed(rows: map<int, User>) {
    && UniqueUsernames(rows)
    && UniqueEmails(rows)
    && forall id :: id in rows ==> ValidUsername(rows[id].username) && IsEmail(rows[id].email)
  }

  /** Rewriting a row without touching its username or email keeps the
      table well formed. */
  lemma SameIdentityKeepsWellFormed(rows: map<int, User>, id: int, u: User)
    requires WellFormed(rows) && id in rows
    requires u.username == rows[id].username && u.email == rows[id].email
    ensures WellFormed(rows[id := u])
  {
    var rows' := rows[id := u];
    forall i, j | i in rows' && j in rows' && rows'[i].username == rows'[j].username
      ensures i == j
    {
      assert rows[i].username == rows'[i].username && rows[j].username == rows'[j].username;
    }
    forall i, j | i in rows' && j in rows' && rows'[i].email == rows'[j].email
      ensures i == j
    {
      assert rows[i].email == rows'[i].email && rows[j].email == rows'[j].email;
    }
  }

  function FindByUsername(rows: map<int, User>, username: string): (r: Option<int>)
    ensures r.Some? ==> r.value in rows && rows[r.value].username == username
    ensures r.None? <==> forall id :: id in rows ==> rows[id].username != username
  {
    FindOne(rows, (u: User) => u.username == username)
  }

  function FindByEmail(rows: map<int, User>, email: string): (r: Option<int>)
    ensures r.Some? ==> r.value in rows && rows[r.value].email == email
    ensures r.None? <==> forall id :: id in rows ==> rows[id].email != email
  {
    FindOne(rows, (u: User) => u.email == email)
  }

  // ---------------------------------------------------------------------
  // Create, with the `beforeCreate` hook.

  /** The values handed to `Usuario.create`. */
  datatype NewUser = NewUser(username: string, password: string, email: string, rol: string)

  predicate NewUserValid(n: NewUser) {
    ValidUsername(n.username) && ValidPassword(n.password) && IsEmail(n.email)
    && ParseRol(n.rol).Some?
  }

  /** `beforeCreate`: a non-empty password is replaced by its hash. */
  function HashOnCreate(u: User, c: Primitives): (r: User)
    ensures u.password != "" ==> r.password == c.hash(u.password)
    ensures u.password == "" ==> r == u
    ensures r.(password := u.password) == u
  {
    if u.password != "" then u.(password := c.hash(u.password)) else u
  }

  /** `Usuario.create`: validation first, then the hook; the new row has no
      image and no refresh token. */
  function CreateRow(n: NewUser, c: Primitives): (r: Result<User>)
    ensures r.Success? <==> NewUserValid(n)
    ensures r.Failure? ==> r.status == BadRequest
    ensures r.Success? ==>
      && r.value.username == n.username && r.value.email == n.email
      && r.value.password == c.hash(n.password)
      && Some(r.value.rol) == ParseRol(n.rol)
      && r.value.imagenPerfil == None && r.value.refreshToken == None
  {
    if !NewUserValid(n) then Failure(BadRequest)
    else Success(HashOnCreate(User(n.username, n.password, n.email, ParseRol(n.rol).value, None, None), c))
  }

  /** `Usuario.create` on the table: a validated row under the next id. */
  method Create(users: Table<User>, n: NewUser, c: Primitives) returns (r: Result<int>)
    requires users.Valid()
    modifies users
    ensures users.Valid()
    ensures CreateRow(n, c).Failure? ==>
      r == Failure(BadRequest) && users.rows == old(users.rows) && users.nextId == old(users.nextId)
    ensures CreateRow(n, c).Success? ==>
      && r == Success(old(users.nextId))
      && users.rows == old(users.rows)[old(users.nextId) := CreateRow(n, c).value]
      && users.nextId == old(users.nextId) + 1
  {
    var row := CreateRow(n, c);
    if row.Failure? {
      return Failure(BadRequest);
    }
    var id := users.Insert(row.value);
    r := Success(id);
  }

  // ---------------------------------------------------------------------
  // Update, with the `beforeUpdate` hook.

  /** The keys of an update object (`camposActualizar`, `{ refreshToken }`,
      `{ imagenPerfil }`): `None` is a key that is not there. */
  datatype Changes = Changes(
    username: Option<string>,
    email: Option<string>,
    password: Option<string>,
    rol: Option<string>,
    imagenPerfil: Option<string>,
    refreshToken: Option<Option<string>>)

  const NoChanges := Changes(None, None, None, None, None, None)

  /** The validators run on the fields an update actually changes. */
  predicate ChangesValid(u: User, ch: Changes) {
    && (ch.username.Some? && ch.username.value != u.username ==> ValidUsername(ch.username.value))
    && (ch.email.Some? && ch.email.value != u.email ==> IsEmail(ch.email.value))
    && (ch.password.Some? && ch.password.value != u.password ==> ValidPassword(ch.password.value))
    && (ch.rol.Some? ==> ParseRol(ch.rol.value).Some?)
  }

  function Assign(u: User, ch: Changes): User {
    User(
      if ch.username.Some? then ch.username.value else u.username,
      if ch.password.Some? then ch.password.value else u.password,
      if ch.email.Some? then ch.email.value else u.email,
      if ch.rol.Some? && ParseRol(ch.rol.value).Some? then ParseRol(ch.rol.value).value else u.rol,
      if ch.imagenPerfil.Some? then Some(ch.imagenPerfil.value) else u.imagenPerfil,
      if ch.refreshToken.Some? then ch.refreshToken.value else u.refreshToken)
  }

  /** `beforeUpdate`: the password is hashed again only when
      `changed('password')`, i.e. the new value differs from the stored one. */
  function BeforeUpdate(prev: User, cur: User, c: Primitives): (r: User)
    ensures cur.password == prev.password ==> r == cur
    ensures cur.password != prev.password ==> r.password == c.hash(cur.password)
    ensures r.(password := cur.password) == cur
  {
    if cur.password != prev.password then cur.(password := c.hash(cur.password)) else cur
  }

  /** `instance.update(changes)`: validation, then assignment, then the hook. */
  function ApplyChanges(u: User, ch: Changes, c: Primitives): (r: Result<User>)
    ensures r.Success? <==> ChangesValid(u, ch)
    ensures r.Failure? ==> r.status == BadRequest
    ensures r.Success? ==>
      && r.value.username == (if ch.username.Some? then ch.username.value else u.username)
      && r.value.email == (if ch.email.Some? then ch.email.value else u.email)
      && r.value.rol == (if ch.rol.Some? then ParseRol(ch.rol.value).value else u.rol)
      && r.value.imagenPerfil == (if ch.imagenPerfil.Some? then Some(ch.imagenPerfil.value) else u.imagenPerfil)
      && r.value.refreshToken == (if ch.refreshToken.Some? then ch.refreshToken.value else u.refreshToken)
    // the stored hash is replaced only by the hash of a new, different password
    ensures r.Success? ==>
      r.value.password ==
        if ch.password.Some? && ch.password.value != u.password then c.hash(ch.password.value)
        else u.password
  {
    if !ChangesValid(u, ch) then Failure(BadRequest)
    else Success(BeforeUpdate(u, Assign(u, ch), c))
  }

  /** An update that sets only the refresh token or only the image cannot
      fail validation and leaves every other column, the hash included,
      as it was. */
  lemma TokenAndImageUpdatesKeepHash(u: User, tok: Option<string>, img: string, c: Primitives)
    ensures ApplyChanges(u, NoChanges.(refreshToken := Some(tok)), c) == Success(u.(refreshToken := tok))
    ensures ApplyChanges(u, NoChanges.(imagenPerfil := Some(img)), c) == Success(u.(imagenPerfil := Some(img)))
  {
  }

  /** `instance.update` on the table. */
  method Save(users: Table<User>, id: int, ch: Changes, c: Primitives) returns (r: Result<User>)
    requires users.Valid() && id in users.rows
    modifies users
    ensures users.Valid() && users.nextId == old(users.nextId)
    ensures r == ApplyChanges(old(users.rows[id]), ch, c)
    ensures users.rows == if r.Success? then old(users.rows)[id := r.value] else old(users.rows)
  {
    r := ApplyChanges(users.rows[id], ch, c);
    if r.Success? {
      users.Put(id, r.value);
    }
  }

  // ---------------------------------------------------------------------

  /** `compararPassword`: `bcrypt.compare` of the offered password against
      the stored hash. */
  function CompararPassword(u: User, pw: string, c: Primitives): (b: bool)
    ensures c.Sound() && u.password == c.hash(pw) ==> b
  {
    c.matches(pw, u.password)
  }

  /** A row created from a plaintext password accepts that password, and
      keeps accepting it across updates that do not name a password. */
  lemma {:induction false} CreatedPasswordMatches(n: NewUser, ch: Changes, c: Primitives)
    requires c.Sound()
    requires CreateRow(n, c).Success?
    requires ch.password.None?
    ensures CompararPassword(CreateRow(n, c).value, n.password, c)
    ensures ApplyChanges(CreateRow(n, c).value, ch, c).Success? ==>
      CompararPassword(ApplyChanges(CreateRow(n, c).value, ch, c).value, n.password, c)
  {
    assert c.matches(n.password, c.hash(n.password));
  }

  /** A password set by an update is accepted afterwards. */
  lemma UpdatedPasswordMatches(u: User, ch: Changes, c: Primitives)
    requires c.Sound()
    requires ch.password.Some? && ch.password.value != u.password
    requires ApplyChanges(u, ch, c).Success?
    ensures CompararPassword(ApplyChanges(u, ch, c).value, ch.password.value, c)
  {
    assert c.matches(ch.password.value, c.hash(ch.password.value));
  }
}
