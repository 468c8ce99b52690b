# Veterinary clinic API: sessions, users, tutors and patients

This project models the JSON API of a veterinary clinic: staff users with
roles (`admin`, `usuario`, `veterinario`), the patients (`pacientes`) and
their owners (`tutores`). The model covers:

- Login, refresh and logout, with JWT access and refresh tokens.
- The bearer-token gate (`verificarToken`) and the role gate (`verificarRol`).
- The user CRUD handlers: self-or-admin ownership, uniqueness checks, the update field-selection rule, and profile-picture upload.
- The tutor and patient CRUD handlers: the referential check on a patient's tutor and the patient merge rule.

Each relational table is a `Tables.Table<T>` object: a `map<int, T>` of rows and an auto-increment counter. Each handler comes in two parts:

- A function of the tables and the request, named `…Spec`. It returns the answer (status or payload) and the new rows in a `Step`. Its `ensures` state what the handler promises.
- A method on the `Table` objects, proved to do exactly what the function says.

The handlers that write have `modifies` on the one table they change. The read-only ones write nothing.

bcrypt and `jsonwebtoken` are not modelled inside. They are four given operations (`Crypto.Primitives`: hash, compare, sign, verify), and lemmas rely only on what the libraries promise (`Primitives.Sound`):

- a password matches its own hash;
- a signed token is non-empty and has no spaces;
- a token verifies to its payload until `iat + ttl`, and after that it is expired.

The clock is an explicit `now` parameter, in seconds for tokens and in milliseconds for upload file names.

Behaviours of the code that the model makes explicit, each proved as a lemma:

- Only the refresh token recorded on the user's row is honoured. A second login makes the first token stale before it expires; logout or deletion revokes it.
- The token gate accepts a refresh token as a bearer token for its full seven days (`Sesiones.RefreshTokenOpensGate`).
- The identity behind the gate is the stored row, so a role change takes effect on the next request.
- Registration is open and takes `rol` from the body, so anyone can register an admin (`UsuariosController.RegistrationMayChooseAdmin`).
- `crearPaciente` refuses `esterilizado: false` (`PacientesController.CrearPacienteRefusesFalse`).
- `actualizarTutor` does not repeat the email check of `crearTutor` (`TutoresController.ActualizarTutorMayDuplicateEmail`).
- `leerPacientes` reads `req.params.tutor_id`, but its route `GET /` has no such parameter, so as mounted it always answers 404 (`PacientesController.LeerPacientesAsMounted`).

Files: `common.dfy` (request values, statuses, `split`, ordered look-ups), `crypto.dfy`, `tables.dfy`, `usuario_model.dfy`, `auth_controller.dfy`, `auth_middleware.dfy`, `usuarios_controller.dfy`, `tutores_controller.dfy`, `pacientes_controller.dfy`, `sesiones.dfy` (properties across several handlers).

## Model

| member | source | states |
|---|---|---|
| `Common.Listing` | src/controllers/tutores.js:75-79 | `findAll` ordered by id: every row exactly once, with its columns, ids strictly ascending |
| `UsuarioModel.ParseRol` | src/models/Usuario.js:42-46 | a role name is accepted exactly when it is one of the three ENUM values, and it maps back to the same text |
| `UsuarioModel.ParseRolName` | src/models/Usuario.js:43 | every role's column text parses back to that role |
| `UsuarioModel.Project` | src/controllers/usuarios.js:7-9 | the public projection keeps id, username, email, rol and imagenPerfil and has no password or refresh-token field |
| `UsuarioModel.ProjectIgnoresSecrets` | src/controllers/auth.js:74 | the projection does not depend on the password hash or the refresh token |
| `UsuarioModel.FindByUsername` | src/controllers/auth.js:47-49 | `findOne({ where: { username } })` finds a row with that username, or none exactly when no row has it |
| `UsuarioModel.FindByEmail` | src/controllers/usuarios.js:47-50 | the same look-up by email |
| `UsuarioModel.SameIdentityKeepsWellFormed` | src/models/Usuario.js:11-40 | rewriting a row without changing its username or email keeps usernames and emails unique and every row valid |
| `UsuarioModel.HashOnCreate` | src/models/Usuario.js:60-65 | `beforeCreate` replaces a non-empty password by its hash, leaves an empty one as it is, and changes nothing else |
| `UsuarioModel.CreateRow` | src/models/Usuario.js:11-65 | create succeeds exactly when username length is in [3, 50], plaintext password length is in [6, 255], email is valid and rol is in the ENUM; the stored password is the hash; there is no image and no token |
| `UsuarioModel.Create` | src/models/Usuario.js:5-65 | `Usuario.create` stores the validated row under the next key, or fails with 400 and leaves the table unchanged |
| `UsuarioModel.BeforeUpdate` | src/models/Usuario.js:66-71 | `beforeUpdate` re-hashes exactly when the password changed: a changed password is stored as its hash, an unchanged one is kept, and no other column is touched |
| `UsuarioModel.ApplyChanges` | src/models/Usuario.js:11-71 | validators run on the changed fields only; each column takes the new value or keeps the old one; the hash is replaced only by the hash of a new, different password |
| `UsuarioModel.TokenAndImageUpdatesKeepHash` | src/models/Usuario.js:66-71 | updating only the refresh token or only the image cannot fail, and leaves the hash and every other column as they were |
| `UsuarioModel.Save` | src/controllers/auth.js:71 | `usuario.update` writes the updated row on success and leaves the table unchanged on failure |
| `UsuarioModel.CreatedPasswordMatches` | src/models/Usuario.js:60-78 | a created row accepts its plaintext password, and keeps accepting it across updates that do not set a password |
| `UsuarioModel.UpdatedPasswordMatches` | src/models/Usuario.js:66-78 | a password set by an update is accepted afterwards |
| `AuthController.TokenContents` | src/controllers/auth.js:10-32 | the access token carries `{id, username, rol}` for 3600 s; the refresh token carries `{id, username}` for 604800 s |
| `AuthController.GenerarAccessToken` | src/controllers/auth.js:10-20 | with sound primitives, the token is non-empty and space-free, verifies at issue to `{id, username, rol}` and is expired 3600 s later |
| `AuthController.GenerarRefreshToken` | src/controllers/auth.js:23-32 | with sound primitives, the token is non-empty and space-free, verifies at issue to `{id, username}` and is expired 604800 s later |
| `AuthController.Honoured` | src/controllers/auth.js:114-120 | definition: the token verifies, its user's row exists and records exactly this token |
| `UsuarioModel.CompararPassword` | src/models/Usuario.js:76-78 | with sound primitives, a row storing the hash of `pw` accepts `pw` |
| `UsuarioModel.ValidUsername` | src/models/Usuario.js:15-20 | definition: username length in [3, 50] |
| `UsuarioModel.ValidPassword` | src/models/Usuario.js:25-30 | definition: plaintext password length in [6, 255] |
| `UsuarioModel.IsEmail` | src/models/Usuario.js:36-40 | definition: the approximation of `isEmail` described under Left out |
| `UsuarioModel.WellFormed` | src/models/Usuario.js:11-40 | definition: unique usernames, unique emails, and every stored username and email valid |
| `UsuariosController.MayManage` | src/controllers/usuarios.js:102 | definition: the caller's own id, or an admin (the same test at lines 138 and 240) |
| `Tables.Table.Insert` | src/controllers/tutores.js:40 | `Model.create`: the row is stored under the counter's key, which no row had, the counter advances, and nothing else changes |
| `Tables.Table.Put` | src/controllers/usuarios.js:200 | `instance.update`: exactly that existing row is rewritten and the counter is unchanged |
| `Tables.Table.Delete` | src/controllers/usuarios.js:266 | `instance.destroy`: exactly that existing row is removed and the counter is unchanged |
| `AuthController.LoginSpec` | src/controllers/auth.js:35-90 | a missing field gives 400 and no change; an unknown user and a wrong password give the same 401 and no change; success replaces only that row's refresh token with the issued one and answers the projection; with unique usernames, success happens exactly for a matching password |
| `AuthController.Login` | src/controllers/auth.js:35-90 | the login handler on the table follows `LoginSpec` |
| `AuthController.RefreshSpec` | src/controllers/auth.js:93-137 | an absent token gives 400; failed verification gives 401; success happens exactly when the token verifies and equals the token stored on its user's row; the new access token is built from the stored row |
| `AuthController.Refresh` | src/controllers/auth.js:93-137 | refresh reads the table and never writes it, and follows `RefreshSpec` |
| `AuthController.LogoutSpec` | src/controllers/auth.js:140-160 | logout clears the caller's refresh token when the row exists and changes nothing otherwise |
| `AuthController.Logout` | src/controllers/auth.js:140-160 | logout always answers 200 and follows `LogoutSpec` |
| `AuthController.LogoutIdempotent` | src/controllers/auth.js:142-147 | logging out twice is the same as logging out once |
| `AuthController.ObtenerPerfilSpec` | src/controllers/auth.js:163-186 | the profile is the caller's projection, or 404 exactly when the row is gone |
| `AuthController.ObtenerPerfil` | src/controllers/auth.js:163-186 | the handler reads the table and follows `ObtenerPerfilSpec` |
| `AuthController.LoginThenRefresh` | src/controllers/auth.js:67-128 | a fresh login's refresh token is honoured until it expires |
| `AuthController.StaleTokenRejected` | src/controllers/auth.js:114-120 | a refresh token that is no longer the one recorded on its user's row is refused with 401, expired or not |
| `AuthController.SameRowFound` | src/controllers/auth.js:47-49 | with unique usernames, a look-up by a row's username after that row was rewritten with the same username finds that row |
| `AuthController.SecondLoginInvalidatesFirst` | src/controllers/auth.js:67-71 | after a second login of the same user that issued a different token, the first refresh token is refused with 401 |
| `AuthController.LogoutRevokes` | src/controllers/auth.js:142-147 | after logout, refresh with a truthy token that verifies to this user or fails to verify is refused with 401 |
| `AuthController.LoginLogoutRefresh` | src/controllers/auth.js:67-160 | login, then logout, then refresh with the login's token is refused |
| `AuthController.LoginPreservesWellFormed` | src/controllers/auth.js:71 | login keeps usernames and emails unique and every row valid |
| `AuthMiddleware.BearerToken` | src/middleware/auth.js:23-32 | the token taken from the header never contains a space |
| `AuthMiddleware.BearerTokenExact` | src/middleware/auth.js:23-32 | the header is accepted with token `t` exactly when it is `"Bearer " + t` and `t` has no space |
| `AuthMiddleware.VerificarTokenSpec` | src/middleware/auth.js:10-76 | every refusal is 401: no header, bad format, expired and invalid are told apart, each exactly in its own case, and a valid token for a missing user is refused; the request passes exactly when the header carries a valid token of a stored user; on success the identity is the stored row's projection, not the token's claims |
| `AuthMiddleware.VerificarToken` | src/middleware/auth.js:10-76 | the gate reads the table and follows `VerificarTokenSpec` |
| `AuthMiddleware.SignedTokenAdmitted` | src/middleware/auth.js:23-67 | a signed token sent as `Bearer <token>` admits its user until it expires, is refused as an unknown user if the row is gone, and is refused as expired afterwards |
| `AuthMiddleware.VerificarRol` | src/middleware/auth.js:79-96 | no identity gives 401, a role not in the list gives 403, and otherwise the request passes |
| `AuthMiddleware.VerificarRolMonotone` | src/middleware/auth.js:87 | allowing more roles never turns away a caller who was let through |
| `AuthMiddleware.VerificarRolExact` | src/middleware/auth.js:87 | a list made only of names outside the ENUM admits nobody |
| `AuthMiddleware.GatesCompose` | src/middleware/auth.js:57-87 | behind a passing token gate the role gate never answers 401 |
| `UsuariosController.BuscarUsuarioPorId` | src/controllers/usuarios.js:6-16 | the projection of the row, or 404 exactly when it is missing |
| `UsuariosController.RolOrDefault` | src/controllers/usuarios.js:64 | `rol \|\| 'usuario'` |
| `UsuariosController.CrearUsuarioSpec` | src/controllers/usuarios.js:19-93 | registration answers 400 with no change for missing fields, a taken username or email, or a failed validation; it succeeds exactly when none of these applies; the new row is stored under the next key with the hash and the role given or `usuario` |
| `UsuariosController.CrearUsuario` | src/controllers/usuarios.js:19-93 | the handler on the table follows `CrearUsuarioSpec` and advances the counter only on success |
| `UsuariosController.CrearUsuarioKeepsWellFormed` | src/controllers/usuarios.js:34-65 | registration keeps usernames and emails unique and every row valid |
| `UsuariosController.RegistrationMayChooseAdmin` | src/controllers/usuarios.js:60-65 | a registration that asks for `admin` creates an admin |
| `UsuariosController.ObtenerUsuarioSpec` | src/controllers/usuarios.js:96-126 | 403 unless the caller is the owner or an admin, checked before 404; success is the projection |
| `UsuariosController.ObtenerUsuario` | src/controllers/usuarios.js:96-126 | the handler reads the table and follows `ObtenerUsuarioSpec` |
| `UsuariosController.Campos` | src/controllers/usuarios.js:155-198 | a username or email is included only when truthy and new, a password when truthy, a role only when truthy and the caller is an admin; each included field holds the body's value; image and token never |
| `UsuariosController.ActualizarUsuarioSpec` | src/controllers/usuarios.js:129-229 | 403, then 404, then 400 for a taken username or email or a failed validation, all with no change; the update succeeds exactly when none of these applies; success rewrites only that row, column by column, with the role changed only by an admin, the password re-hashed, and image and token kept |
| `UsuariosController.CamposActualizar` | src/controllers/usuarios.js:155-198 | the duplicate checks and the field choice: nothing when a new username or email is taken, else `Campos` |
| `UsuariosController.ActualizarUsuario` | src/controllers/usuarios.js:129-229 | the handler on the table follows `ActualizarUsuarioSpec` |
| `UsuariosController.OnlyAdminChangesRol` | src/controllers/usuarios.js:196-198 | a non-admin's successful update is on its own row and never changes the role |
| `UsuariosController.UpdatedPasswordAccepted` | src/controllers/usuarios.js:191-200 | the password set through an update is accepted afterwards |
| `UsuariosController.ActualizarUsuarioKeepsWellFormed` | src/controllers/usuarios.js:157-200 | an update keeps usernames and emails unique and every row valid |
| `UsuariosController.EliminarUsuarioSpec` | src/controllers/usuarios.js:232-282 | 403 unless owner or admin, then 404; success removes exactly that row |
| `UsuariosController.EliminarUsuario` | src/controllers/usuarios.js:232-282 | the handler on the table follows `EliminarUsuarioSpec` |
| `UsuariosController.EliminarUsuarioKeepsWellFormed` | src/controllers/usuarios.js:266 | deletion keeps the table well formed |
| `UsuariosController.ForbiddenRevealsNothing` | src/controllers/usuarios.js:102-106 | a caller who may not manage an id gets the same answer from read, update and delete whatever the table holds |
| `UsuariosController.NatString` | src/controllers/usuarios.js:348 | the decimal rendering is non-empty, made of digits, and one digit long exactly below 10 |
| `UsuariosController.NatStringInjective` | src/controllers/usuarios.js:348 | different numbers print differently |
| `UsuariosController.IntStringInjective` | src/controllers/usuarios.js:348 | different integers print differently |
| `UsuariosController.NombreArchivoId` | src/controllers/usuarios.js:348 | the second underscore-separated field of the file name is exactly the user's id |
| `UsuariosController.NombreArchivoDistinct` | src/controllers/usuarios.js:347-360 | two users' pictures never get the same file name, whatever the time and the extension |
| `UsuariosController.SubirImagenSpec` | src/controllers/usuarios.js:285-383 | self only (403 even for admins); then 400 for no file, a MIME type outside the five, or more than 5·1024·1024 bytes; then 404; success sets only `imagenPerfil` and answers `/uploads/<name>` |
| `UsuariosController.SubirImagenPerfil` | src/controllers/usuarios.js:285-383 | the handler on the table follows `SubirImagenSpec` |
| `UsuariosController.SubirImagenKeepsIdentity` | src/controllers/usuarios.js:363-365 | an upload keeps the table well formed, the password check and the refresh token |
| `TutoresController.BuscarTutorPorId` | src/controllers/tutores.js:4-13 | the row, or an error answered 500 exactly when it is missing |
| `TutoresController.FindByEmail` | src/controllers/tutores.js:29-34 | `findOne({ where: { email } })` finds a tutor with that email, or none exactly when there is none |
| `TutoresController.CrearTutorSpec` | src/controllers/tutores.js:16-70 | 500 with no change for an undefined or already-used email; otherwise the five fields are stored as given under the next key |
| `TutoresController.CrearTutor` | src/controllers/tutores.js:16-70 | the handler on the table follows `CrearTutorSpec` |
| `TutoresController.CrearTutorKeepsEmailsUnique` | src/controllers/tutores.js:29-48 | creating tutors keeps their emails unique |
| `TutoresController.LeerTutores` | src/controllers/tutores.js:73-95 | every tutor exactly once, in ascending id order |
| `TutoresController.Patch` | src/controllers/tutores.js:105-109 | each of the five fields takes the body's value unless it is undefined; null clears it |
| `TutoresController.PatchLaws` | src/controllers/tutores.js:105-109 | an empty body changes nothing, a full body replaces everything, and patching twice is patching once |
| `TutoresController.ActualizarTutorSpec` | src/controllers/tutores.js:98-126 | 500 with no change for a missing tutor; otherwise only that row is patched |
| `TutoresController.ActualizarTutor` | src/controllers/tutores.js:98-126 | the handler on the table follows `ActualizarTutorSpec` |
| `TutoresController.ActualizarTutorMayDuplicateEmail` | src/controllers/tutores.js:105-109 | an update can give a tutor an email another tutor already has |
| `TutoresController.EliminarTutorSpec` | src/controllers/tutores.js:129-151 | 500 with no change for a missing tutor; otherwise exactly that row is removed |
| `TutoresController.EliminarTutor` | src/controllers/tutores.js:129-151 | the handler on the table follows `EliminarTutorSpec` |
| `PacientesController.ObtenerPacientePorId` | src/controllers/pacientes.js:3-27 | the patient with its tutor included, or an error answered 500 exactly when the patient is missing |
| `PacientesController.NewPaciente` | src/controllers/pacientes.js:60-70 | the created patient has the given name and tutor and is sterilised, and especie, raza, edad and sexo are stored as given, `null` or absent as NULL |
| `PacientesController.CrearPacienteSpec` | src/controllers/pacientes.js:30-94 | 500 unless nombre, esterilizado and tutor_id are truthy; 404 for a missing tutor; no change on either; success stores the patient under the next key and answers it with its tutor |
| `PacientesController.CrearPaciente` | src/controllers/pacientes.js:30-94 | the handler on the tables follows `CrearPacienteSpec` |
| `PacientesController.CrearPacienteRefusesFalse` | src/controllers/pacientes.js:45-47 | `esterilizado: false` is refused like a missing field |
| `PacientesController.Of` | src/controllers/pacientes.js:111-114 | exactly the patients with the given tutor_id |
| `PacientesController.LeerPacientesSpec` | src/controllers/pacientes.js:97-144 | 404 exactly when the tutor is missing; otherwise exactly that tutor's patients, each once, ascending by id, with the tutor summary; `total_pacientes` is the list length; the name is `nombre apellido` |
| `PacientesController.LeerPacientes` | src/controllers/pacientes.js:97-144 | the handler reads the tables and follows `LeerPacientesSpec` |
| `PacientesController.LeerPacientesAsMounted` | src/controllers/pacientes.js:99-109 | without a `tutor_id` parameter the answer is 404 |
| `PacientesController.Merge` | src/controllers/pacientes.js:174-184 | `\|\|` fallback for nombre, especie, raza, sexo and tutor_id; `!== undefined` for edad and esterilizado |
| `PacientesController.MergeLaws` | src/controllers/pacientes.js:174-184 | an empty body keeps the patient; `""`, `null` and `0` keep the `\|\|` columns, while `0` and `false` are written to edad and esterilizado; null clears them; merging twice is merging once |
| `PacientesController.ActualizarPacienteSpec` | src/controllers/pacientes.js:147-201 | 500 for a missing patient; 404 for a new tutor that does not exist; no change on either; success merges only that patient and answers it reloaded |
| `PacientesController.ActualizarPaciente` | src/controllers/pacientes.js:147-201 | the handler on the tables follows `ActualizarPacienteSpec` |
| `PacientesController.EliminarPacienteSpec` | src/controllers/pacientes.js:204-226 | 500 with no change for a missing patient; otherwise exactly that row is removed |
| `PacientesController.EliminarPaciente` | src/controllers/pacientes.js:204-226 | the handler on the table follows `EliminarPacienteSpec` |
| `PacientesController.PacientesKeepReferences` | src/controllers/pacientes.js:50-58 | creating, updating and deleting patients keep every patient's tutor in the tutor table, and an updated patient is answered with its tutor |
| `PacientesController.TutoresKeepReferences` | src/controllers/tutores.js:40-135 | tutor create and update keep every patient's tutor in place; delete keeps it when no patient names that tutor |
| `Sesiones.LoginOpensGate` | src/controllers/auth.js:67 | a login's access token opens the gate for one hour with the login's identity, and is refused as expired afterwards |
| `Sesiones.RefreshTokenOpensGate` | src/middleware/auth.js:36-67 | after the access token expires, the refresh token still opens the gate until its own expiry |
| `Sesiones.DeletedUserLockedOut` | src/controllers/usuarios.js:266 | after deletion every token naming the user is refused by the gate as an unknown user, and by refresh |
| `Sesiones.RoleChangeSeenAtGate` | src/controllers/usuarios.js:196-200 | after an admin changes a role, the user's existing token yields the new role at the gate |
| `Sesiones.RegisterLoginRead` | src/controllers/usuarios.js:19-93 | register, log in with the same credentials, and read the new row through the gate with the access token; without a header the request is refused |

## Left out

- Salting is not modelled: bcrypt's `genSalt` is absorbed into `hash`, so hashing is one fixed function. `matches(pw, hash(pw))` is the only property used. Cost factor and constant-time comparison are not modelled.
- JWT signing uses one process-wide secret. The `JWT_SECRET` startup check (src/controllers/auth.js:4-7, src/middleware/auth.js:4-7) is environment handling and is not modelled. `verify` of an empty or foreign token is left unconstrained.
- `IsEmail` approximates validator.js `isEmail`. It asks for: no spaces, exactly one `@` with a non-empty local part, and a domain of at least two non-empty dot-separated labels.
- `rol` outside the ENUM: the model refuses it as a validation failure (400), like the other validators. This is a deliberate simplification. Without Sequelize's `typeValidation` option (the database configuration is not part of this model), the value reaches the database. The resulting error is not a `SequelizeValidationError`, so the catch blocks at src/controllers/usuarios.js:81-91 and src/controllers/usuarios.js:217-227 answer 500.
- Transactions, rollback and concurrency are not modelled; each handler is one atomic step. The unique-constraint mechanism of the database is not modelled either: uniqueness is what the explicit look-ups give.
- The catch-all 500 answers for database, filesystem or library failures are not modelled. Unreachable branches that answer 500 in the model are the exception; their ensures prove them unreachable.
- The file system work in upload and delete (`fs.unlink`, `mkdir`, `imagen.mv`) is not modelled. `path.extname` is taken as given: the extension is a field of `Upload`. `Date.now()` is the parameter `nowMs`.
- Message texts and `detalles` strings are not modelled. Failures carry their status (400, 401, 403, 404, 500) and successes their payload.
- Success status codes: creates answer 201 (for example src/controllers/pacientes.js:76, src/controllers/usuarios.js:72, src/controllers/tutores.js:52) and the other handlers 200, but `Result.Success` carries no code, so 201 and 200 are not told apart.
- Timestamps: `timestamps: true` (src/models/Usuario.js:58) adds `createdAt` and `updatedAt` to every user row, and every update rewrites `updatedAt`. These columns are not modelled, so `UsuarioModel.Project`, `AuthController.LoginSpec`, `UsuariosController.SubirImagenSpec` and the other "only this column changes" contracts hold of the modelled columns only; the stored rows and the projections also carry the two timestamps.
- Body field types: each body field has one JSON type in the model (`Json<string>`, `Json<bool>`, `Json<int>`: absent, `null` or a value of that type). The handlers accept any JSON value; a value of another type, such as `esterilizado: "false"` (truthy, so accepted at src/controllers/pacientes.js:45), is not modelled.
- Route ids are integers; the `parseInt` of string parameters is not modelled.
- Express wiring is not modelled: `app.js`, the routers, body parsing. The token gate's identity is passed to the protected handlers as a parameter. As shipped, `app.js:11-12` mounts only `/index/tutores` and `/index/pacientes`. The auth and user routers (src/routes/auth.js, src/routes/usuarios.js) are never mounted, and no file-upload middleware fills `req.files`. The auth and user handlers are modelled as if they were mounted.
- The tutor and patient model definitions (column types, validators and the association's `onDelete` behaviour) are not part of this model. Columns are nullable with no validators. Deleting a tutor removes only its row, whether or not patients name it.
- `TutoresController.CrearTutorSpec`: an undefined email is modelled as a 500, because the ORM refuses `undefined` in a `where` clause.
- `src/controllers/doctores.js` is not part of this model; no router of the shipped app reaches it.
- `AuthController.SecondLoginInvalidatesFirst`: requires the two issued refresh tokens to differ. `jwt.sign` stamps `iat` in seconds, so two logins within one second give equal tokens.
