/** The `/index/pacientes` handlers over the patient table, which refers to
    the tutor table: create after a referential check, list a tutor's
    patients, update by the field-merge rule, delete. */
module PacientesController {
  import opened Common
  import opened Tables
  import opened TutoresController

  /** A patient row. `nombre` is always a non-empty string (create demands
      it and update only replaces it by a truthy value); the column
      definitions are not part of this model. */
  datatype Paciente = Paciente(nombre: string, especie: Option<string>, raza: Option<string>,
                               edad: Option<int>, esterilizado: Option<bool>, sexo: Option<string>,
                               tutorId: int)

  /** The fields of a create or update body. */
  datatype DatosPaciente = DatosPaciente(nombre: Json<string>, especie: Json<string>, raza: Json<string>,
                                         edad: Json<int>, esterilizado: Json<bool>, sexo: Json<string>,
                                         tutorId: Json<int>)

  /** A patient with its tutor included (`include: [{ model: Tutor, as: 'tutor' }]`);
      the tutor is null when the row it names is gone. */
  datatype PacienteConTutor = PacienteConTutor(id: int, paciente: Paciente, tutor: Option<Row<Tutor>>)

  /** Every patient names a tutor that exists. */
  ghost predicate References(pacientes: map<int, Paciente>, tutores: map<int, Tutor>) {
    forall id :: id in pacientes ==> pacientes[id].tutorId in tutores
  }

  /** `obtenerPacientePorId`: the patient with its tutor, or the "Paciente no
      encontrado" error, which every caller answers with 500. */
  function ObtenerPacientePorId(pacientes: map<int, Paciente>, tutores: map<int, Tutor>, id: int)
    : (r: Result<PacienteConTutor>)
    ensures r.Success? <==> id in pacientes
    ensures r.Failure? ==> r.status == InternalError
    ensures r.Success? ==>
      && r.value.id == id && r.value.paciente == pacientes[id]
      && var t := pacientes[id].tutorId;
         r.value.tutor == if t in tutores then Some(Row(t, tutores[t])) else None
  {
    if id !in pacientes then Failure(InternalError)
    else
      var t := pacientes[id].tutorId;
      Success(PacienteConTutor(id, pacientes[id], if t in tutores then Some(Row(t, tutores[t])) else None))
  }

  // ---------------------------------------------------------------------
  // POST /index/pacientes

  /** `if (!nombre || !esterilizado || !tutor_id) throw`: `false` and `0`
      are refused like missing values. */
  predicate Obligatorios(body: DatosPaciente) {
    TruthyString(body.nombre) && TruthyBool(body.esterilizado) && TruthyNumber(body.tutorId)
  }

  function NewPaciente(body: DatosPaciente): (p: Paciente)
    requires Obligatorios(body)
    ensures p.nombre == body.nombre.v && p.tutorId == body.tutorId.v && p.esterilizado == Some(true)
    // the optional columns are stored as given, `null` and `undefined` as NULL
    ensures p.especie == Stored(body.especie) && p.raza == Stored(body.raza)
    ensures p.edad == Stored(body.edad) && p.sexo == Stored(body.sexo)
  {
    Paciente(body.nombre.v, Stored(body.especie), Stored(body.raza), Stored(body.edad),
             Stored(body.esterilizado), Stored(body.sexo), body.tutorId.v)
  }

  function CrearPacienteSpec(pacientes: map<int, Paciente>, nextId: int, tutores: map<int, Tutor>,
                             body: DatosPaciente): (out: Step<PacienteConTutor, Paciente>)
    ensures !Obligatorios(body) ==> out == Step(Failure(InternalError), pacientes)
    ensures Obligatorios(body) && body.tutorId.v !in tutores ==> out == Step(Failure(NotFound), pacientes)
    ensures out.result.Failure? ==> out.rows == pacientes
    ensures out.result.Success? <==> Obligatorios(body) && body.tutorId.v in tutores
    // the new patient is stored under the next key and answered with its tutor
    ensures out.result.Success? ==>
      && out.rows == pacientes[nextId := NewPaciente(body)]
      && out.result.value
           == PacienteConTutor(nextId, NewPaciente(body), Some(Row(body.tutorId.v, tutores[body.tutorId.v])))
  {
    if !Obligatorios(body) then Step(Failure(InternalError), pacientes)
    else if body.tutorId.v !in tutores then Step(Failure(NotFound), pacientes)
    else
      var rows := pacientes[nextId := NewPaciente(body)];
      Step(ObtenerPacientePorId(rows, tutores, nextId), rows)
  }

  method CrearPaciente(pacientes: Table<Paciente>, tutores: Table<Tutor>, body: DatosPaciente)
    returns (r: Result<PacienteConTutor>)
    requires pacientes.Valid()
    modifies pacientes
    ensures pacientes.Valid()
    ensures Step(r, pacientes.rows) == CrearPacienteSpec(old(pacientes.rows), old(pacientes.nextId), tutores.rows, body)
    ensures pacientes.nextId == old(pacientes.nextId) + (if r.Success? then 1 else 0)
  {
    if !TruthyString(body.nombre) || !TruthyBool(body.esterilizado) || !TruthyNumber(body.tutorId) {
      return Failure(InternalError);
    }
    if body.tutorId.v !in tutores.rows {
      return Failure(NotFound);
    }
    var id := pacientes.Insert(NewPaciente(body));
    r := ObtenerPacientePorId(pacientes.rows, tutores.rows, id);
  }

  /** A patient can be registered only as sterilised: `esterilizado: false`
      fails the presence check. */
  lemma CrearPacienteRefusesFalse(pacientes: map<int, Paciente>, nextId: int, tutores: map<int, Tutor>,
                                  body: DatosPaciente)
    requires body.esterilizado == Val(false)
    ensures CrearPacienteSpec(pacientes, nextId, tutores, body) == Step(Failure(InternalError), pacientes)
  {
  }

  // ---------------------------------------------------------------------
  // GET /index/pacientes

  /** The tutor fields listed with each patient (`attributes: ['id',
      'nombre', 'apellido', 'telefono']`). */
  datatype TutorResumen = TutorResumen(id: int, nombre: Option<string>, apellido: Option<string>,
                                       telefono: Option<string>)

  datatype PacienteListado = PacienteListado(id: int, paciente: Paciente, tutor: TutorResumen)

  /** The answer: the tutor's id and full name, the count, the patients. */
  datatype Listado = Listado(tutorId: int, tutorNombre: string, totalPacientes: int,
                             pacientes: seq<PacienteListado>)

  /** A column as a template literal prints it: `null` prints "null". */
  function Texto(x: Option<string>): string {
    if x.Some? then x.value else "null"
  }

  /** The patients of one tutor. */
  function Of(pacientes: map<int, Paciente>, tutorId: int): (r: map<int, Paciente>)
    ensures forall id :: id in r <==> id in pacientes && pacientes[id].tutorId == tutorId
    ensures forall id :: id in r ==> r[id] == pacientes[id]
  {
    map id | id in pacientes && pacientes[id].tutorId == tutorId :: pacientes[id]
  }

  /** Each listed row with the tutor summary attached. */
  function Entries(rows: seq<Row<Paciente>>, resumen: TutorResumen): (l: seq<PacienteListado>)
    ensures |l| == |rows|
    ensures forall k :: 0 <= k < |l| ==> l[k] == PacienteListado(rows[k].id, rows[k].value, resumen)
  {
    seq(|rows|, k requires 0 <= k < |rows| => PacienteListado(rows[k].id, rows[k].value, resumen))
  }

  function LeerPacientesSpec(pacientes: map<int, Paciente>, tutores: map<int, Tutor>, tutorId: Option<int>)
    : (r: Result<Listado>)
    ensures r.Success? <==> tutorId.Some? && tutorId.value in tutores
    ensures r.Failure? ==> r.status == NotFound
    ensures r.Success? ==>
      var t := tutores[tutorId.value];
      var l := r.value.pacientes;
      && r.value.tutorId == tutorId.value
      && r.value.tutorNombre == Texto(t.nombre) + " " + Texto(t.apellido)
      && r.value.totalPacientes == |l|
      // exactly that tutor's patients, each once, in ascending id order
      && (forall i, j :: 0 <= i < j < |l| ==> l[i].id < l[j].id)
      && (forall k :: 0 <= k < |l| ==>
            && l[k].id in pacientes && l[k].paciente == pacientes[l[k].id]
            && l[k].paciente.tutorId == tutorId.value
            && l[k].tutor == TutorResumen(tutorId.value, t.nombre, t.apellido, t.telefono))
      && (forall id :: id in pacientes && pacientes[id].tutorId == tutorId.value ==>
            exists k :: 0 <= k < |l| && l[k].id == id)
  {
    if tutorId.None? || tutorId.value !in tutores then Failure(NotFound)
    else
      var id := tutorId.value;
      var t := tutores[id];
      var l := Entries(Listing(Of(pacientes, id)), TutorResumen(id, t.nombre, t.apellido, t.telefono));
      Success(Listado(id, Texto(t.nombre) + " " + Texto(t.apellido), |l|, l))
  }

  /** `leerPacientes` reads both tables and never writes them. */
  method LeerPacientes(pacientes: Table<Paciente>, tutores: Table<Tutor>, tutorId: Option<int>)
    returns (r: Result<Listado>)
    ensures r == LeerPacientesSpec(pacientes.rows, tutores.rows, tutorId)
  {
    if tutorId.None? || tutorId.value !in tutores.rows {
      return Failure(NotFound);
    }
    var id := tutorId.value;
    var tutor := tutores.rows[id];
    var lista := Entries(Listing(Of(pacientes.rows, id)), TutorResumen(id, tutor.nombre, tutor.apellido, tutor.telefono));
    r := Success(Listado(id, Texto(tutor.nombre) + " " + Texto(tutor.apellido), |lista|, lista));
  }

  /** The handler reads `req.params.tutor_id`, but the route `GET /` has no
      such parameter: as mounted, the listing always answers 404. */
  lemma LeerPacientesAsMounted(pacientes: map<int, Paciente>, tutores: map<int, Tutor>)
    ensures LeerPacientesSpec(pacientes, tutores, None) == Failure(NotFound)
  {
  }

  // ---------------------------------------------------------------------
  // PUT /index/pacientes/:id

  /** The merge of `actualizarPaciente`: `x || old` for nombre, especie, raza,
      sexo and tutor_id, `x !== undefined ? x : old` for edad and esterilizado. */
  function Merge(p: Paciente, body: DatosPaciente): (q: Paciente)
    ensures q.nombre == if TruthyString(body.nombre) then body.nombre.v else p.nombre
    ensures q.especie == if TruthyString(body.especie) then Some(body.especie.v) else p.especie
    ensures q.raza == if TruthyString(body.raza) then Some(body.raza.v) else p.raza
    ensures q.edad == DefinedOr(body.edad, p.edad)
    ensures q.esterilizado == DefinedOr(body.esterilizado, p.esterilizado)
    ensures q.sexo == if TruthyString(body.sexo) then Some(body.sexo.v) else p.sexo
    ensures q.tutorId == if TruthyNumber(body.tutorId) then body.tutorId.v else p.tutorId
  {
    Paciente(
      if TruthyString(body.nombre) then body.nombre.v else p.nombre,
      if TruthyString(body.especie) then Some(body.especie.v) else p.especie,
      if TruthyString(body.raza) then Some(body.raza.v) else p.raza,
      DefinedOr(body.edad, p.edad),
      DefinedOr(body.esterilizado, p.esterilizado),
      if TruthyString(body.sexo) then Some(body.sexo.v) else p.sexo,
      if TruthyNumber(body.tutorId) then body.tutorId.v else p.tutorId)
  }

  /** The merge rule's consequences: an empty body keeps the patient, a
      falsy value keeps a `||` column but `0`, `false` and `null` are
      written to edad and esterilizado, and merging twice is merging once. */
  lemma MergeLaws(p: Paciente, body: DatosPaciente)
    ensures Merge(p, DatosPaciente(Undefined, Undefined, Undefined, Undefined, Undefined, Undefined, Undefined)) == p
    ensures Merge(p, DatosPaciente(Val(""), Null, Val(""), Val(0), Val(false), Null, Val(0)))
              == p.(edad := Some(0), esterilizado := Some(false))
    ensures Merge(p, body.(edad := Null, esterilizado := Null)).edad == None
    ensures Merge(p, body.(edad := Null, esterilizado := Null)).esterilizado == None
    ensures Merge(Merge(p, body), body) == Merge(p, body)
  {
  }

  /** The tutor named by a body that changes it is missing. */
  predicate MissingNewTutor(p: Paciente, tutores: map<int, Tutor>, body: DatosPaciente) {
    TruthyNumber(body.tutorId) && body.tutorId.v != p.tutorId && body.tutorId.v !in tutores
  }

  function ActualizarPacienteSpec(pacientes: map<int, Paciente>, tutores: map<int, Tutor>, id: int,
                                  body: DatosPaciente): (out: Step<PacienteConTutor, Paciente>)
    ensures id !in pacientes ==> out == Step(Failure(InternalError), pacientes)
    ensures id in pacientes && MissingNewTutor(pacientes[id], tutores, body) ==>
      out == Step(Failure(NotFound), pacientes)
    ensures out.result.Failure? ==> out.rows == pacientes
    ensures out.result.Success? <==> id in pacientes && !MissingNewTutor(pacientes[id], tutores, body)
    // only this patient changes, by the merge rule, and it is answered reloaded
    ensures out.result.Success? ==>
      && out.rows == pacientes[id := Merge(pacientes[id], body)]
      && out.result == ObtenerPacientePorId(out.rows, tutores, id)
  {
    match ObtenerPacientePorId(pacientes, tutores, id)
    case Failure(e) => Step(Failure(e), pacientes)
    case Success(found) =>
      if MissingNewTutor(found.paciente, tutores, body) then Step(Failure(NotFound), pacientes)
      else
        var rows := pacientes[id := Merge(found.paciente, body)];
        Step(ObtenerPacientePorId(rows, tutores, id), rows)
  }

  method ActualizarPaciente(pacientes: Table<Paciente>, tutores: Table<Tutor>, id: int, body: DatosPaciente)
    returns (r: Result<PacienteConTutor>)
    requires pacientes.Valid()
    modifies pacientes
    ensures pacientes.Valid() && pacientes.nextId == old(pacientes.nextId)
    ensures Step(r, pacientes.rows) == ActualizarPacienteSpec(old(pacientes.rows), tutores.rows, id, body)
  {
    var found := ObtenerPacientePorId(pacientes.rows, tutores.rows, id);
    if found.Failure? {
      return Failure(found.status);
    }
    var paciente := found.value.paciente;
    if TruthyNumber(body.tutorId) && body.tutorId.v != paciente.tutorId {
      if body.tutorId.v !in tutores.rows {
        return Failure(NotFound);
      }
    }
    pacientes.Put(id, Merge(paciente, body));
    r := ObtenerPacientePorId(pacientes.rows, tutores.rows, id);
  }

  // ---------------------------------------------------------------------
  // DELETE /index/pacientes/:id

  function EliminarPacienteSpec(pacientes: map<int, Paciente>, tutores: map<int, Tutor>, id: int)
    : (out: Step<(), Paciente>)
    ensures id !in pacientes ==> out == Step(Failure(InternalError), pacientes)
    ensures out.result.Success? <==> id in pacientes
    ensures out.result.Success? ==> out.rows == pacientes - {id}
  {
    match ObtenerPacientePorId(pacientes, tutores, id)
    case Failure(e) => Step(Failure(e), pacientes)
    case Success(_) => Step(Success(()), pacientes - {id})
  }

  method EliminarPaciente(pacientes: Table<Paciente>, tutores: Table<Tutor>, id: int) returns (r: Result<()>)
    requires pacientes.Valid()
    modifies pacientes
    ensures pacientes.Valid() && pacientes.nextId == old(pacientes.nextId)
    ensures Step(r, pacientes.rows) == EliminarPacienteSpec(old(pacientes.rows), tutores.rows, id)
  {
    var found := ObtenerPacientePorId(pacientes.rows, tutores.rows, id);
    if found.Failure? {
      return Failure(found.status);
    }
    pacientes.Delete(id);
    r := Success(());
  }

  // ---------------------------------------------------------------------
  // The referential invariant across both tables.

  /** Creating, updating and deleting patients keep every patient's tutor
      in place, and a patient created or updated is answered with it. */
  lemma PacientesKeepReferences(pacientes: map<int, Paciente>, nextId: int, tutores: map<int, Tutor>,
                                id: int, body: DatosPaciente)
    requires References(pacientes, tutores)
    ensures References(CrearPacienteSpec(pacientes, nextId, tutores, body).rows, tutores)
    ensures References(ActualizarPacienteSpec(pacientes, tutores, id, body).rows, tutores)
    ensures References(EliminarPacienteSpec(pacientes, tutores, id).rows, tutores)
    ensures ActualizarPacienteSpec(pacientes, tutores, id, body).result.Success? ==>
      ActualizarPacienteSpec(pacientes, tutores, id, body).result.value.tutor.Some?
  {
    var up := ActualizarPacienteSpec(pacientes, tutores, id, body);
    if up.result.Success? {
      assert Merge(pacientes[id], body).tutorId in tutores;
    }
  }

  /** Tutor writes keep the invariant; a tutor can be deleted without
      breaking it only if no patient names it. */
  lemma TutoresKeepReferences(pacientes: map<int, Paciente>, tutores: map<int, Tutor>, nextId: int,
                              id: int, body: DatosTutor)
    requires References(pacientes, tutores)
    ensures References(pacientes, CrearTutorSpec(tutores, nextId, body).rows)
    ensures References(pacientes, ActualizarTutorSpec(tutores, id, body).rows)
    ensures (forall p :: p in pacientes ==> pacientes[p].tutorId != id) ==>
      References(pacientes, EliminarTutorSpec(tutores, id).rows)
  {
  }
}
