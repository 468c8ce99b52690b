/** The `/index/tutores` handlers over the tutor table: create with an email
    check, list by id, update and delete after a lookup. Every error here,
    the missing tutor included, is answered 500. */
module TutoresController {
  import opened Common
  import opened Tables

  /** A tutor row. The column definitions are not part of this model, so
      every column is nullable text with no validator. */
  datatype Tutor = Tutor(nombre: Option<string>, apellido: Option<string>, email: Option<string>,
                         telefono: Option<string>, direccion: Option<string>)

  /** The five fields of a create or update body. */
  datatype DatosTutor = DatosTutor(nombre: Json<string>, apellido: Json<string>, email: Json<string>,
                                   telefono: Json<string>, direccion: Json<string>)

  /** No two tutors share an email (a missing email counts as one value,
      since `where: { email: null }` matches it). */
  ghost predicate UniqueTutorEmails(rows: map<int, Tutor>) {
    forall i, j :: i in rows && j in rows && rows[i].email == rows[j].email ==> i == j
  }

  /** `buscarTutorPorId`: the row, or the "Tutor no encontrado" error, which
      every caller answers with 500. */
  function BuscarTutorPorId(rows: map<int, Tutor>, id: int): (r: Result<Row<Tutor>>)
    ensures r.Success? <==> id in rows
    ensures r.Failure? ==> r.status == InternalError
    ensures r.Success? ==> r.value == Row(id, rows[id])
  {
    if id !in rows then Failure(InternalError) else Success(Row(id, rows[id]))
  }

  function FindByEmail(rows: map<int, Tutor>, email: Option<string>): (r: Option<int>)
    ensures r.Some? ==> r.value in rows && rows[r.value].email == email
    ensures r.None? <==> forall id :: id in rows ==> rows[id].email != email
  {
    FindOne(rows, (t: Tutor) => t.email == email)
  }

  // ---------------------------------------------------------------------
  // POST /index/tutores

  function NewTutor(body: DatosTutor): Tutor {
    Tutor(Stored(body.nombre), Stored(body.apellido), Stored(body.email),
          Stored(body.telefono), Stored(body.direccion))
  }

  function CrearTutorSpec(rows: map<int, Tutor>, nextId: int, body: DatosTutor): (out: Step<Row<Tutor>, Tutor>)
    // an `undefined` value in a `where` clause is an ORM error
    ensures body.email.Undefined? ==> out == Step(Failure(InternalError), rows)
    ensures out.result.Failure? ==> out == Step(Failure(InternalError), rows)
    ensures out.result.Success? <==>
      !body.email.Undefined? && forall id :: id in rows ==> rows[id].email != Stored(body.email)
    // the five fields are stored as given, under the next key
    ensures out.result.Success? ==>
      && out.rows == rows[nextId := out.result.value.value]
      && out.result.value.id == nextId
      && out.result.value.value.nombre == Stored(body.nombre)
      && out.result.value.value.apellido == Stored(body.apellido)
      && out.result.value.value.email == Stored(body.email)
      && out.result.value.value.telefono == Stored(body.telefono)
      && out.result.value.value.direccion == Stored(body.direccion)
  {
    if body.email.Undefined? then Step(Failure(InternalError), rows)
    else if FindByEmail(rows, Stored(body.email)).Some? then Step(Failure(InternalError), rows)
    else Step(Success(Row(nextId, NewTutor(body))), rows[nextId := NewTutor(body)])
  }

  method CrearTutor(tutores: Table<Tutor>, body: DatosTutor) returns (r: Result<Row<Tutor>>)
    requires tutores.Valid()
    modifies tutores
    ensures tutores.Valid()
    ensures Step(r, tutores.rows) == CrearTutorSpec(old(tutores.rows), old(tutores.nextId), body)
    ensures tutores.nextId == old(tutores.nextId) + (if r.Success? then 1 else 0)
  {
    if body.email.Undefined? {
      return Failure(InternalError);
    }
    var emailExiste := FindByEmail(tutores.rows, Stored(body.email));
    if emailExiste.Some? {
      return Failure(InternalError);
    }
    var tutor := NewTutor(body);
    var id := tutores.Insert(tutor);
    r := Success(Row(id, tutor));
  }

  /** Creating tutors keeps their emails unique. */
  lemma CrearTutorKeepsEmailsUnique(rows: map<int, Tutor>, nextId: int, body: DatosTutor)
    requires UniqueTutorEmails(rows) && nextId !in rows
    ensures UniqueTutorEmails(CrearTutorSpec(rows, nextId, body).rows)
  {
    var out := CrearTutorSpec(rows, nextId, body);
    if out.result.Success? {
      var rows' := out.rows;
      forall i, j | i in rows' && j in rows' && rows'[i].email == rows'[j].email
        ensures i == j
      {
        if i != nextId && j != nextId {
          assert rows[i].email == rows[j].email;
        }
      }
    }
  }

  // ---------------------------------------------------------------------
  // GET /index/tutores

  /** `leerTutores` reads the table and never writes it. */
  method LeerTutores(tutores: Table<Tutor>) returns (r: seq<Row<Tutor>>)
    ensures r == Listing(tutores.rows)
    ensures |r| == |tutores.rows.Keys|
    ensures forall i, j :: 0 <= i < j < |r| ==> r[i].id < r[j].id
    ensures forall k :: 0 <= k < |r| ==> r[k].id in tutores.rows && r[k].value == tutores.rows[r[k].id]
    ensures forall id :: id in tutores.rows ==> exists k :: 0 <= k < |r| && r[k].id == id
  {
    r := Listing(tutores.rows);
  }

  // ---------------------------------------------------------------------
  // PUT /index/tutores/:id

  /** `tutor.update({ nombre, apellido, email, telefono, direccion })`:
      keys whose value is `undefined` are dropped, `null` clears a column. */
  function Patch(t: Tutor, body: DatosTutor): (r: Tutor)
    ensures r.nombre == DefinedOr(body.nombre, t.nombre)
    ensures r.apellido == DefinedOr(body.apellido, t.apellido)
    ensures r.email == DefinedOr(body.email, t.email)
    ensures r.telefono == DefinedOr(body.telefono, t.telefono)
    ensures r.direccion == DefinedOr(body.direccion, t.direccion)
  {
    Tutor(DefinedOr(body.nombre, t.nombre), DefinedOr(body.apellido, t.apellido),
          DefinedOr(body.email, t.email), DefinedOr(body.telefono, t.telefono),
          DefinedOr(body.direccion, t.direccion))
  }

  /** An empty body changes nothing, a full body replaces everything, and
      applying the same body twice is applying it once. */
  lemma PatchLaws(t: Tutor, body: DatosTutor)
    ensures Patch(t, DatosTutor(Undefined, Undefined, Undefined, Undefined, Undefined)) == t
    ensures !body.nombre.Undefined? && !body.apellido.Undefined? && !body.email.Undefined?
            && !body.telefono.Undefined? && !body.direccion.Undefined? ==>
      Patch(t, body) == NewTutor(body)
    ensures Patch(Patch(t, body), body) == Patch(t, body)
  {
  }

  function ActualizarTutorSpec(rows: map<int, Tutor>, id: int, body: DatosTutor): (out: Step<Row<Tutor>, Tutor>)
    ensures id !in rows ==> out == Step(Failure(InternalError), rows)
    ensures out.result.Success? <==> id in rows
    // only this row changes, and no email check is made
    ensures out.result.Success? ==>
      out.rows == rows[id := Patch(rows[id], body)] && out.result.value == Row(id, Patch(rows[id], body))
  {
    match BuscarTutorPorId(rows, id)
    case Failure(e) => Step(Failure(e), rows)
    case Success(tutor) =>
      var t := Patch(tutor.value, body);
      Step(Success(Row(id, t)), rows[id := t])
  }

  method ActualizarTutor(tutores: Table<Tutor>, id: int, body: DatosTutor) returns (r: Result<Row<Tutor>>)
    requires tutores.Valid()
    modifies tutores
    ensures tutores.Valid() && tutores.nextId == old(tutores.nextId)
    ensures Step(r, tutores.rows) == ActualizarTutorSpec(old(tutores.rows), id, body)
  {
    var found := BuscarTutorPorId(tutores.rows, id);
    if found.Failure? {
      return Failure(found.status);
    }
    var tutor := Patch(found.value.value, body);
    tutores.Put(id, tutor);
    r := Success(Row(id, tutor));
  }

  /** Unlike create, update does not check the email: it can give a second
      tutor an email already on file. */
  lemma ActualizarTutorMayDuplicateEmail()
    ensures
      var a := Tutor(None, None, Some("a@b.cl"), None, None);
      var b := Tutor(None, None, Some("c@d.cl"), None, None);
      var rows := map[1 := a, 2 := b];
      var body := DatosTutor(Undefined, Undefined, Val("a@b.cl"), Undefined, Undefined);
      && UniqueTutorEmails(rows)
      && ActualizarTutorSpec(rows, 2, body).result.Success?
      && !UniqueTutorEmails(ActualizarTutorSpec(rows, 2, body).rows)
  {
    var a := Tutor(None, None, Some("a@b.cl"), None, None);
    var b := Tutor(None, None, Some("c@d.cl"), None, None);
    var rows := map[1 := a, 2 := b];
    var body := DatosTutor(Undefined, Undefined, Val("a@b.cl"), Undefined, Undefined);
    assert a.email != b.email;
    var rows' := ActualizarTutorSpec(rows, 2, body).rows;
    assert rows'[1].email == rows'[2].email;
  }

  // ---------------------------------------------------------------------
  // DELETE /index/tutores/:id

  function EliminarTutorSpec(rows: map<int, Tutor>, id: int): (out: Step<(), Tutor>)
    ensures id !in rows ==> out == Step(Failure(InternalError), rows)
    ensures out.result.Success? <==> id in rows
    ensures out.result.Success? ==> out.rows == rows - {id}
  {
    match BuscarTutorPorId(rows, id)
    case Failure(e) => Step(Failure(e), rows)
    case Success(_) => Step(Success(()), rows - {id})
  }

  method EliminarTutor(tutores: Table<Tutor>, id: int) returns (r: Result<()>)
    requires tutores.Valid()
    modifies tutores
    ensures tutores.Valid() && tutores.nextId == old(tutores.nextId)
    ensures Step(r, tutores.rows) == EliminarTutorSpec(old(tutores.rows), id)
  {
    var found := BuscarTutorPorId(tutores.rows, id);
    if found.Failure? {
      return Failure(found.status);
    }
    tutores.Delete(id);
    r := Success(());
  }
}
