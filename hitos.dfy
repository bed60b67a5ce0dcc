/** controllers/hitosController.js: the milestones (`hitos`) of a project.
    Creating one under a name unique within its project, editing and deleting
    by key, and the three lookups that answer 404 when nothing matches. */
module Hitos {
  import opened Common
  import opened Schema
  import Proyectos

  const PROYECTO_NOT_FOUND_MSG := "Proyecto no encontrado"
  const NO_HITOS_MSG := "No hay hitos para el proyecto"
  const INVALID_MSG := "Datos inválidos"
  const NO_PROYECTO_ID_MSG := "El proyectoId es obligatorio."
  const DUPLICATE_MSG := "El hito con este nombre ya existe para el proyecto."
  const CREATED_MSG := "Hito registrado correctamente"
  const MISSING_FIELDS_MSG := "Todos los campos son requeridos."
  const BAD_DATES_MSG := "Las fechas proporcionadas no son válidas."
  const BAD_STATE_MSG := "El estado debe ser uno de los siguientes: Pendiente, En progreso, Completado"
  const UPDATED_MSG := "Hito actualizado exitosamente"
  const DELETED_MSG := "Hito eliminado exitosamente"

  /** The states `editarHito` and the creation route accept. */
  const HITO_STATES: seq<string> := ["Pendiente", "En progreso", "Completado"]

  // ---------------------------------------------------------------------
  // Lookups
  // ---------------------------------------------------------------------

  datatype ProyectoRef = ProyectoRef(id: int, nombre: string)

  /** `getProyecto`: key and name of the project, or 404. */
  function GetProyecto(proyectos: seq<Proyecto>, id: int): (r: Reply<ProyectoRef>)
    ensures r.Fail? <==> forall p | p in proyectos :: p.id != id
    ensures r.Fail? ==> r == Fail(NOT_FOUND, PROYECTO_NOT_FOUND_MSG)
    ensures r.Done? ==> r.code == OK && r.body.id == id
    ensures r.Done? ==> exists p | p in proyectos :: p.id == id && r.body.nombre == p.nombre
  {
    match Proyectos.FindProyecto(proyectos, id)
    case None => Fail(NOT_FOUND, PROYECTO_NOT_FOUND_MSG)
    case Some(p) => Done(OK, ProyectoRef(p.id, p.nombre))
  }

  /** `SELECT * FROM hitos WHERE id_proyecto = ?`, in table order. */
  function HitosOf(hitos: seq<Hito>, proyectoId: int): (r: seq<Hito>)
    ensures forall h :: h in r <==> h in hitos && h.idProyecto == proyectoId
    ensures |r| <= |hitos|
  {
    if hitos == [] then []
    else
      var init := HitosOf(hitos[..|hitos| - 1], proyectoId);
      var last := hitos[|hitos| - 1];
      assert forall h | h in hitos :: h == last || h in hitos[..|hitos| - 1];
      if last.idProyecto == proyectoId then init + [last] else init
  }

  /** `getHitos`: every milestone of the project, or 404 when it has none. */
  function GetHitos(hitos: seq<Hito>, proyectoId: int): (r: Reply<seq<Hito>>)
    ensures r.Fail? <==> forall h | h in hitos :: h.idProyecto != proyectoId
    ensures r.Fail? ==> r == Fail(NOT_FOUND, NO_HITOS_MSG)
    ensures r.Done? ==> r.code == OK && forall h :: h in r.body <==> h in hitos && h.idProyecto == proyectoId
  {
    var rows := HitosOf(hitos, proyectoId);
    if rows == [] then Fail(NOT_FOUND, NO_HITOS_MSG)
    else
      assert rows[0] in rows;
      Done(OK, rows)
  }

  /** `SELECT ... FROM hitos WHERE id_hito = ?`: the first row with that key. */
  function FindHito(hitos: seq<Hito>, id: int): Option<Hito> {
    FindKey(hitos, HitoKey, id)
  }

  /** The columns `getHito` selects: everything but the project key. */
  datatype HitoView = HitoView(id: int, nombre: string, descripcion: string, fechaInicio: string, fechaFin: string, estado: string)

  function ViewOf(h: Hito): HitoView {
    HitoView(h.id, h.nombre, h.descripcion, h.fechaInicio, h.fechaFin, h.estado)
  }

  /** `getHito`: the milestone to edit, or 404 with the project message. */
  function GetHito(hitos: seq<Hito>, id: int): (r: Reply<HitoView>)
    ensures r.Fail? <==> forall h | h in hitos :: h.id != id
    ensures r.Fail? ==> r == Fail(NOT_FOUND, PROYECTO_NOT_FOUND_MSG)
    ensures r.Done? ==> r.code == OK && r.body.id == id
    ensures r.Done? ==> exists h | h in hitos :: h.id == id && r.body == ViewOf(h)
  {
    match FindHito(hitos, id)
    case None => Fail(NOT_FOUND, PROYECTO_NOT_FOUND_MSG)
    case Some(h) => Done(OK, ViewOf(h))
  }

  // ---------------------------------------------------------------------
  // crearHito
  // ---------------------------------------------------------------------

  /** The body of a creation request. `proyectoId` is absent, or the number
      sent. */
  datatype CrearForm = CrearForm(
    titulo: string, descripcion: string, fechaInicio: string, fechaFin: string,
    estado: string, proyectoId: Option<int>)

  /** The validation chain of the creation route; `isDate` is the
      validator's date check. */
  predicate CrearValid(f: CrearForm, isDate: string -> bool) {
    && f.titulo != ""
    && f.fechaInicio != "" && isDate(f.fechaInicio)
    && f.fechaFin != "" && isDate(f.fechaFin)
    && f.estado in HITO_STATES
    && f.proyectoId.Some?
  }

  /** A milestone with this name already exists in the project. */
  predicate HitoExists(hitos: seq<Hito>, proyectoId: int, titulo: string) {
    exists h | h in hitos :: h.idProyecto == proyectoId && h.nombre == titulo
  }

  /** `crearHito`. After validation the only rejected key is the number 0,
      which is falsy. The project-existence check tests the destructured
      row list, which is always truthy, so a milestone is created for a
      project that does not exist: `db.proyectos` plays no part. */
  method CrearHito(db: Database, f: CrearForm, isDate: string -> bool) returns (reply: Reply<string>)
    requires db.Valid()
    modifies db`hitos, db`nextHitoId
    ensures db.Valid()
    ensures !CrearValid(f, isDate) ==> reply == Fail(BAD_REQUEST, INVALID_MSG) && unchanged(db)
    ensures CrearValid(f, isDate) && f.proyectoId == Some(0) ==>
      reply == Fail(BAD_REQUEST, NO_PROYECTO_ID_MSG) && unchanged(db)
    ensures CrearValid(f, isDate) && f.proyectoId != Some(0) ==>
      if HitoExists(old(db.hitos), f.proyectoId.value, f.titulo) then
        reply == Fail(BAD_REQUEST, DUPLICATE_MSG) && unchanged(db)
      else
        reply == Done(CREATED, CREATED_MSG) &&
        db.hitos == old(db.hitos) + [Hito(old(db.nextHitoId), f.proyectoId.value, f.titulo, f.descripcion, f.fechaInicio, f.fechaFin, f.estado)] &&
        db.nextHitoId == old(db.nextHitoId) + 1
  {
    if !CrearValid(f, isDate) {
      return Fail(BAD_REQUEST, INVALID_MSG);
    }
    var proyectoId := f.proyectoId.value;
    if proyectoId == 0 {
      return Fail(BAD_REQUEST, NO_PROYECTO_ID_MSG);
    }
    if HitoExists(db.hitos, proyectoId, f.titulo) {
      return Fail(BAD_REQUEST, DUPLICATE_MSG);
    }
    db.hitos := db.hitos + [Hito(db.nextHitoId, proyectoId, f.titulo, f.descripcion, f.fechaInicio, f.fechaFin, f.estado)];
    db.nextHitoId := db.nextHitoId + 1;
    return Done(CREATED, CREATED_MSG);
  }

  /** Names stay unique within each project: a creation that passes the
      duplicate check adds no second milestone of the same name there. */
  lemma CrearKeepsNamesUnique(hitos: seq<Hito>, x: Hito)
    requires forall i, j | 0 <= i < j < |hitos| :: hitos[i].idProyecto == hitos[j].idProyecto ==> hitos[i].nombre != hitos[j].nombre
    requires !HitoExists(hitos, x.idProyecto, x.nombre)
    ensures var after := hitos + [x];
      forall i, j | 0 <= i < j < |after| :: after[i].idProyecto == after[j].idProyecto ==> after[i].nombre != after[j].nombre
  {
    var after := hitos + [x];
    forall i, j | 0 <= i < j < |after| && after[i].idProyecto == after[j].idProyecto
      ensures after[i].nombre != after[j].nombre
    {
      if j == |hitos| {
        assert after[i] in hitos;
      } else {
        assert after[i] == hitos[i] && after[j] == hitos[j];
      }
    }
  }

  // ---------------------------------------------------------------------
  // editarHito
  // ---------------------------------------------------------------------

  /** The body of an edit request; each field may be absent. */
  datatype EditForm = EditForm(
    nombre: Option<string>, descripcion: Option<string>, fechaInicio: Option<string>,
    fechaFin: Option<string>, estado: Option<string>)

  /** The field is present and not the empty string. */
  predicate Given(o: Option<string>) {
    o.Some? && o.value != ""
  }

  predicate AllGiven(f: EditForm) {
    Given(f.nombre) && Given(f.descripcion) && Given(f.fechaInicio) && Given(f.fechaFin) && Given(f.estado)
  }

  /** The three checks of `editarHito`, in order: the message of the first
      that fails, or `None`. `parses` says whether `Date.parse` gives a
      number. The route's validators name other fields and never report, so
      these checks are the only ones. */
  function EditCheck(f: EditForm, parses: string -> bool): (r: Option<string>)
    ensures r == Some(MISSING_FIELDS_MSG) <==> !AllGiven(f)
    ensures r == Some(BAD_DATES_MSG) <==> AllGiven(f) && !(parses(f.fechaInicio.value) && parses(f.fechaFin.value))
    ensures r == Some(BAD_STATE_MSG) <==>
      AllGiven(f) && parses(f.fechaInicio.value) && parses(f.fechaFin.value) && f.estado.value !in HITO_STATES
    ensures r.None? <==>
      AllGiven(f) && parses(f.fechaInicio.value) && parses(f.fechaFin.value) && f.estado.value in HITO_STATES
  {
    if !AllGiven(f) then Some(MISSING_FIELDS_MSG)
    else if !parses(f.fechaInicio.value) || !parses(f.fechaFin.value) then Some(BAD_DATES_MSG)
    else if f.estado.value !in HITO_STATES then Some(BAD_STATE_MSG)
    else None
  }

  /** `UPDATE hitos SET nombre_hito = ?, ... WHERE id_hito = ?`. */
  function Edited(hitos: seq<Hito>, id: int, f: EditForm): (r: seq<Hito>)
    requires AllGiven(f)
    ensures |r| == |hitos|
    ensures forall k | 0 <= k < |hitos| && hitos[k].id != id :: r[k] == hitos[k]
    ensures forall k | 0 <= k < |hitos| && hitos[k].id == id ::
      r[k] == Hito(id, hitos[k].idProyecto, f.nombre.value, f.descripcion.value, f.fechaInicio.value, f.fechaFin.value, f.estado.value)
  {
    seq(|hitos|, k requires 0 <= k < |hitos| =>
      if hitos[k].id == id then
        hitos[k].(nombre := f.nombre.value, descripcion := f.descripcion.value, fechaInicio := f.fechaInicio.value,
                  fechaFin := f.fechaFin.value, estado := f.estado.value)
      else hitos[k])
  }

  /** `editarHito`. The update's answer is the `[rows, fields]` pair, whose
      `affectedRows` is undefined, so the 404 branch never runs: an edit of a
      key that does not exist answers 200 and changes nothing. */
  method EditarHito(db: Database, id: int, f: EditForm, parses: string -> bool) returns (reply: Reply<string>)
    requires db.Valid()
    modifies db`hitos
    ensures db.Valid()
    ensures EditCheck(f, parses).Some? ==> reply == Fail(BAD_REQUEST, EditCheck(f, parses).value) && db.hitos == old(db.hitos)
    ensures EditCheck(f, parses).None? ==> reply == Done(OK, UPDATED_MSG) && db.hitos == Edited(old(db.hitos), id, f)
  {
    var problem := EditCheck(f, parses);
    if problem.Some? {
      return Fail(BAD_REQUEST, problem.value);
    }
    var before := db.hitos;
    db.hitos := Edited(db.hitos, id, f);
    assert forall h | h in db.hitos :: h in before || h.id == id by {
      forall h | h in db.hitos ensures h in before || h.id == id {
        var k :| 0 <= k < |db.hitos| && db.hitos[k] == h;
        assert before[k] in before;
      }
    }
    assert forall h | h in db.hitos && h.id == id :: h.id < db.nextHitoId by {
      forall h | h in db.hitos && h.id == id ensures h.id < db.nextHitoId {
        var k :| 0 <= k < |db.hitos| && db.hitos[k] == h;
        assert before[k] in before;
      }
    }
    return Done(OK, UPDATED_MSG);
  }

  /** Editing an absent key leaves the table as it was. */
  lemma EditedAbsent(hitos: seq<Hito>, id: int, f: EditForm)
    requires AllGiven(f)
    requires forall h | h in hitos :: h.id != id
    ensures Edited(hitos, id, f) == hitos
  {
    var r := Edited(hitos, id, f);
    forall k | 0 <= k < |hitos| ensures r[k] == hitos[k] {
      assert hitos[k] in hitos;
    }
  }

  // ---------------------------------------------------------------------
  // eliminarHito
  // ---------------------------------------------------------------------

  /** `DELETE FROM hitos WHERE id_hito = ?`. */
  function WithoutHito(hitos: seq<Hito>, id: int): seq<Hito> {
    WithoutKey(hitos, HitoKey, id)
  }

  /** `eliminarHito`: for the same reason as the edit, the answer is 200
      whether or not a row was deleted. */
  method EliminarHito(db: Database, id: int) returns (reply: Reply<string>)
    requires db.Valid()
    modifies db`hitos
    ensures db.Valid()
    ensures reply == Done(OK, DELETED_MSG)
    ensures db.hitos == WithoutHito(old(db.hitos), id)
  {
    db.hitos := WithoutHito(db.hitos, id);
    return Done(OK, DELETED_MSG);
  }
}
