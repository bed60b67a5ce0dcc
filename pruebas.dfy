/** controllers/pruebasController.js: the test plans (`planPruebas`) of a
    project. Registering a plan, which first moves the chosen milestone to a
    new state, closing a milestone, editing and deleting a plan, and the
    lookups behind the test screens. */
module Pruebas {
  import opened Common
  import opened Schema
  import Grafica
  import Proyectos
  import Hitos

  const NO_TOKEN_MSG := "Token de autenticación no proporcionado"
  const REGISTER_ERROR_MSG := "Error en el servidor al registrar el plan de prueba"
  const PROYECTO_NOT_FOUND_MSG := "Proyecto no encontrado"
  const HITO_MISMATCH_MSG := "Hito no encontrado o no pertenece al proyecto"
  const CREATED_MSG := "Plan de prueba creado correctamente"
  const NO_HITO_MSG := "El hito a finalizar no existe"
  const HITO_DONE_MSG := "Hito actualizado correctamente"
  const COMPLETADO := "Completado"
  const UPDATE_ERROR_MSG := "Error en el servidor al actualizar el plan de prueba"
  const PLAN_NOT_FOUND_MSG := "Prueba no encontrada"
  const NOT_UPDATED_MSG := "No se pudo actualizar el plan de prueba"
  const UPDATED_MSG := "Plan de prueba actualizado correctamente"
  const NO_PLAN_MSG := "La prueba no existe"
  const DELETED_MSG := "Prueba eliminada correctamente"
  const NO_HITOS_MSG := "No existen hitos para el proyecto"

  /** The test states both validation chains accept (one is listed twice). */
  const PRUEBA_STATES: seq<string> := ["Aprobado", "Pendiente", "Rechazada", "Pendiente", "Bloqueado",
    "Desconocido", "Requiere más pruebas", "No aplicable"]

  /** The milestone states the registration chain accepts. */
  const HITO_STATES: seq<string> := ["En progreso", "Completado"]

  /** Every state a plan can be stored with is one the dashboard counts,
      and every state it counts can be stored. */
  lemma StatesCharted()
    ensures forall s :: s in PRUEBA_STATES <==> s in Grafica.STATES
  {
  }

  /** `imagenPrueba || null`: an absent or empty image is stored as null. */
  function Imagen(imagenPrueba: Option<string>): (r: Option<string>)
    ensures r.None? <==> imagenPrueba.None? || imagenPrueba.value == ""
    ensures r.Some? ==> r == imagenPrueba
  {
    if imagenPrueba.Some? && imagenPrueba.value != "" then imagenPrueba else None
  }

  // ---------------------------------------------------------------------
  // registerPlanDePrueba
  // ---------------------------------------------------------------------

  datatype PlanForm = PlanForm(
    hitoSeleccionado: int, estadoNuevoHito: Option<string>, resultadoEsperado: string,
    pruebaRealizada: string, estadoPrueba: string, criterioAceptacion: string,
    imagenPrueba: Option<string>)

  /** The validation chain of the registration route. The milestone state
      has no `optional()`, so a missing one fails `isIn` too. */
  predicate PlanValid(f: PlanForm) {
    && f.estadoNuevoHito.Some? && f.estadoNuevoHito.value in HITO_STATES
    && f.resultadoEsperado != "" && f.pruebaRealizada != ""
    && f.estadoPrueba != "" && f.estadoPrueba in PRUEBA_STATES
    && f.criterioAceptacion != ""
  }

  /** `estadonuevoHito && estadonuevoHito.trim()`. */
  predicate NewHitoState(f: PlanForm) {
    f.estadoNuevoHito.Some? && HasText(f.estadoNuevoHito.value)
  }

  /** Because the chain only lets the two listed states through, the
      milestone update always runs for a request that passes it. */
  lemma ValidPlanMovesHito(f: PlanForm)
    requires PlanValid(f)
    ensures NewHitoState(f)
  {
    assert !IsSpace(f.estadoNuevoHito.value[0]);
  }

  /** The milestone the update addresses: key `hito` in project `proyecto`. */
  predicate Targets(h: Hito, hito: int, proyecto: int) {
    h.id == hito && h.idProyecto == proyecto
  }

  /** The rows an `UPDATE ... WHERE` matches, its `affectedRows` (the
      driver counts matched rows). */
  function Matching(hitos: seq<Hito>, hito: int, proyecto: int): (n: nat)
    ensures n == 0 <==> forall h | h in hitos :: !Targets(h, hito, proyecto)
  {
    if hitos == [] then 0
    else
      assert forall h | h in hitos :: h == hitos[0] || h in hitos[1..];
      (if Targets(hitos[0], hito, proyecto) then 1 else 0) + Matching(hitos[1..], hito, proyecto)
  }

  /** `UPDATE hitos SET estado = ? WHERE id_hito = ? AND id_proyecto = ?`. */
  function SetEstado(hitos: seq<Hito>, hito: int, proyecto: int, estado: string): (r: seq<Hito>)
    ensures |r| == |hitos|
    ensures forall k | 0 <= k < |hitos| ::
      r[k] == if Targets(hitos[k], hito, proyecto) then hitos[k].(estado := estado) else hitos[k]
  {
    seq(|hitos|, k requires 0 <= k < |hitos| =>
      if Targets(hitos[k], hito, proyecto) then hitos[k].(estado := estado) else hitos[k])
  }

  /** The plan row inserted for project `id`: the URL's project, not one
      derived from the milestone. */
  function NewPlan(planId: int, id: int, f: PlanForm, now: DateTime): (p: PlanPrueba)
    ensures p.id == planId && p.idProyecto == id && p.hitoSeleccionado == f.hitoSeleccionado
    ensures p.imagen == Imagen(f.imagenPrueba)
    ensures p.fechaCreacion == now && p.fechaActualizacion == now
  {
    PlanPrueba(planId, f.hitoSeleccionado, f.resultadoEsperado, f.pruebaRealizada, f.estadoPrueba,
               f.criterioAceptacion, Imagen(f.imagenPrueba), id, now, now)
  }

  /** The milestone update keeps every milestone key where it was. */
  lemma SetEstadoIdsBelow(hitos: seq<Hito>, hito: int, proyecto: int, estado: string, n: int)
    requires HitoIdsBelow(hitos, n)
    ensures HitoIdsBelow(SetEstado(hitos, hito, proyecto, estado), n)
  {
    var r := SetEstado(hitos, hito, proyecto, estado);
    forall h | h in r ensures h.id < n {
      var k :| 0 <= k < |r| && r[k] == h;
      assert hitos[k] in hitos;
    }
  }

  /** `INSERT INTO planPruebas ...`: the new row takes the next generated key. */
  method InsertPlan(db: Database, id: int, f: PlanForm, now: DateTime)
    requires db.Valid()
    modifies db`planPruebas, db`nextPlanId
    ensures db.Valid()
    ensures db.planPruebas == old(db.planPruebas) + [NewPlan(old(db.nextPlanId), id, f, now)]
    ensures db.nextPlanId == old(db.nextPlanId) + 1
  {
    db.planPruebas := db.planPruebas + [NewPlan(db.nextPlanId, id, f, now)];
    db.nextPlanId := db.nextPlanId + 1;
  }

  /** `registerPlanDePrueba`. Steps that can raise a database error: 0 the
      project lookup, 1 the milestone update, 2 the insert. The two writes
      are not in a transaction: an error at the insert keeps the milestone's
      new state. */
  method RegisterPlanDePrueba(db: Database, id: int, f: PlanForm, header: Header, now: DateTime, fault: Fault)
    returns (reply: Reply<string>)
    requires db.Valid()
    modifies db`hitos, db`planPruebas, db`nextPlanId
    ensures db.Valid()
    ensures !PlanValid(f) ==> reply == Fail(BAD_REQUEST, VALIDATION_ERRORS) && unchanged(db)
    ensures PlanValid(f) && header.NoToken? ==> reply == Fail(UNAUTHORIZED, NO_TOKEN_MSG) && unchanged(db)
    ensures PlanValid(f) && header.Token? && (!header.verdict.Verified? || FailsAt(fault, 0)) ==>
      reply == Fail(SERVER_ERROR, REGISTER_ERROR_MSG) && unchanged(db)
    ensures PlanValid(f) && header.Token? && header.verdict.Verified? && !FailsAt(fault, 0) ==>
      if Proyectos.FindProyecto(old(db.proyectos), id).None? then
        reply == Fail(NOT_FOUND, PROYECTO_NOT_FOUND_MSG) && unchanged(db)
      else if FailsAt(fault, 1) then
        reply == Fail(SERVER_ERROR, REGISTER_ERROR_MSG) && unchanged(db)
      else if Matching(old(db.hitos), f.hitoSeleccionado, id) == 0 then
        reply == Fail(NOT_FOUND, HITO_MISMATCH_MSG) && unchanged(db)
      else
        db.hitos == SetEstado(old(db.hitos), f.hitoSeleccionado, id, f.estadoNuevoHito.value) &&
        if FailsAt(fault, 2) then
          reply == Fail(SERVER_ERROR, REGISTER_ERROR_MSG) && db.planPruebas == old(db.planPruebas) &&
          db.nextPlanId == old(db.nextPlanId)
        else
          reply == Done(CREATED, CREATED_MSG) &&
          db.planPruebas == old(db.planPruebas) + [NewPlan(old(db.nextPlanId), id, f, now)] &&
          db.nextPlanId == old(db.nextPlanId) + 1
  {
    if !PlanValid(f) {
      return Fail(BAD_REQUEST, VALIDATION_ERRORS);
    }
    if header.NoToken? {
      return Fail(UNAUTHORIZED, NO_TOKEN_MSG);
    }
    if !header.verdict.Verified? || FailsAt(fault, 0) {
      return Fail(SERVER_ERROR, REGISTER_ERROR_MSG);
    }
    if Proyectos.FindProyecto(db.proyectos, id).None? {
      return Fail(NOT_FOUND, PROYECTO_NOT_FOUND_MSG);
    }
    ValidPlanMovesHito(f);
    if NewHitoState(f) {
      if FailsAt(fault, 1) {
        return Fail(SERVER_ERROR, REGISTER_ERROR_MSG);
      }
      var affected := Matching(db.hitos, f.hitoSeleccionado, id);
      if affected == 0 {
        return Fail(NOT_FOUND, HITO_MISMATCH_MSG);
      }
      SetEstadoIdsBelow(db.hitos, f.hitoSeleccionado, id, f.estadoNuevoHito.value, db.nextHitoId);
      db.hitos := SetEstado(db.hitos, f.hitoSeleccionado, id, f.estadoNuevoHito.value);
    }
    if FailsAt(fault, 2) {
      return Fail(SERVER_ERROR, REGISTER_ERROR_MSG);
    }
    InsertPlan(db, id, f, now);
    return Done(CREATED, CREATED_MSG);
  }

  /** With no milestone matched the update is the identity, which is why
      the 404 after it leaves the table as it was. */
  lemma SetEstadoUnmatched(hitos: seq<Hito>, hito: int, proyecto: int, estado: string)
    requires Matching(hitos, hito, proyecto) == 0
    ensures SetEstado(hitos, hito, proyecto, estado) == hitos
  {
    var r := SetEstado(hitos, hito, proyecto, estado);
    forall k | 0 <= k < |hitos| ensures r[k] == hitos[k] {
      assert hitos[k] in hitos;
    }
  }

  // ---------------------------------------------------------------------
  // putHito
  // ---------------------------------------------------------------------

  /** `UPDATE hitos SET estado = 'Completado' WHERE id_hito = ?`. */
  function Completed(hitos: seq<Hito>, id: int): (r: seq<Hito>)
    ensures |r| == |hitos|
    ensures forall k | 0 <= k < |hitos| ::
      r[k] == if hitos[k].id == id then hitos[k].(estado := COMPLETADO) else hitos[k]
  {
    seq(|hitos|, k requires 0 <= k < |hitos| =>
      if hitos[k].id == id then hitos[k].(estado := COMPLETADO) else hitos[k])
  }

  /** `putHito`: closes the milestone; the others stay as they were. */
  method PutHito(db: Database, hitoSeleccionado: int) returns (reply: Reply<string>)
    requires db.Valid()
    modifies db`hitos
    ensures db.Valid()
    ensures Hitos.FindHito(old(db.hitos), hitoSeleccionado).None? ==>
      reply == Fail(NOT_FOUND, NO_HITO_MSG) && db.hitos == old(db.hitos)
    ensures Hitos.FindHito(old(db.hitos), hitoSeleccionado).Some? ==>
      reply == Done(OK, HITO_DONE_MSG) && db.hitos == Completed(old(db.hitos), hitoSeleccionado)
  {
    if Hitos.FindHito(db.hitos, hitoSeleccionado).None? {
      return Fail(NOT_FOUND, NO_HITO_MSG);
    }
    var before := db.hitos;
    db.hitos := Completed(db.hitos, hitoSeleccionado);
    forall h | h in db.hitos ensures h.id < db.nextHitoId {
      var k :| 0 <= k < |db.hitos| && db.hitos[k] == h;
      assert before[k] in before;
    }
    return Done(OK, HITO_DONE_MSG);
  }

  /** Closing a milestone twice is closing it once. */
  lemma CompletedIdempotent(hitos: seq<Hito>, id: int)
    ensures Completed(Completed(hitos, id), id) == Completed(hitos, id)
  {
    var once := Completed(hitos, id);
    var twice := Completed(once, id);
    forall k | 0 <= k < |hitos| ensures twice[k] == once[k] {
    }
  }

  /** A closed milestone reads as completed afterwards. */
  lemma CompletedState(hitos: seq<Hito>, id: int)
    ensures forall h | h in Completed(hitos, id) && h.id == id :: h.estado == COMPLETADO
    ensures forall h | h in Completed(hitos, id) && h.id != id :: h in hitos
  {
    var r := Completed(hitos, id);
    forall h | h in r ensures h.id == id ==> h.estado == COMPLETADO
      ensures h.id != id ==> h in hitos
    {
      var k :| 0 <= k < |r| && r[k] == h;
      assert hitos[k] in hitos;
    }
  }

  // ---------------------------------------------------------------------
  // updatePlanDePrueba
  // ---------------------------------------------------------------------

  datatype PlanEdit = PlanEdit(
    resultadoEsperado: string, pruebaRealizada: string, estadoPrueba: string,
    criterioAceptacion: string, imagenPrueba: Option<string>)

  /** The validation chain of the edit route. */
  predicate EditValid(e: PlanEdit) {
    && e.resultadoEsperado != "" && e.pruebaRealizada != ""
    && e.estadoPrueba != "" && e.estadoPrueba in PRUEBA_STATES
    && e.criterioAceptacion != ""
  }

  /** `SELECT ... FROM planPruebas WHERE id_plan = ?`: the first row with that key. */
  function FindPlan(plans: seq<PlanPrueba>, id: int): Option<PlanPrueba> {
    FindKey(plans, PlanKey, id)
  }

  /** The edited plan: five fields and `fecha_actualizacion = NOW()`. */
  function EditedPlan(p: PlanPrueba, e: PlanEdit, now: DateTime): (r: PlanPrueba)
    ensures r.id == p.id && r.idProyecto == p.idProyecto && r.hitoSeleccionado == p.hitoSeleccionado
    ensures r.fechaCreacion == p.fechaCreacion && r.fechaActualizacion == now
    ensures r.imagen == Imagen(e.imagenPrueba)
  {
    p.(resultadoEsperado := e.resultadoEsperado, pruebaRealizada := e.pruebaRealizada,
       estadoPrueba := e.estadoPrueba, criterioAceptacion := e.criterioAceptacion,
       imagen := Imagen(e.imagenPrueba), fechaActualizacion := now)
  }

  /** `UPDATE planPruebas SET ... WHERE id_plan = ?`. */
  function PlansEdited(plans: seq<PlanPrueba>, id: int, e: PlanEdit, now: DateTime): (r: seq<PlanPrueba>)
    ensures |r| == |plans|
    ensures forall k | 0 <= k < |plans| ::
      r[k] == if plans[k].id == id then EditedPlan(plans[k], e, now) else plans[k]
  {
    seq(|plans|, k requires 0 <= k < |plans| =>
      if plans[k].id == id then EditedPlan(plans[k], e, now) else plans[k])
  }

  /** The matched rows of the plan update. */
  function PlanMatches(plans: seq<PlanPrueba>, id: int): nat {
    CountKey(plans, PlanKey, id)
  }

  /** `updatePlanDePrueba`. The update addresses the row the lookup just
      found, so its "not updated" 404 cannot follow a successful lookup. */
  method UpdatePlanDePrueba(db: Database, prueba: int, e: PlanEdit, header: Header, now: DateTime)
    returns (reply: Reply<string>)
    requires db.Valid()
    modifies db`planPruebas
    ensures db.Valid()
    ensures !EditValid(e) ==> reply == Fail(BAD_REQUEST, VALIDATION_ERRORS) && db.planPruebas == old(db.planPruebas)
    ensures EditValid(e) && header.NoToken? ==>
      reply == Fail(UNAUTHORIZED, NO_TOKEN_MSG) && db.planPruebas == old(db.planPruebas)
    ensures EditValid(e) && header.Token? && !header.verdict.Verified? ==>
      reply == Fail(SERVER_ERROR, UPDATE_ERROR_MSG) && db.planPruebas == old(db.planPruebas)
    ensures EditValid(e) && header.Token? && header.verdict.Verified? ==>
      if FindPlan(old(db.planPruebas), prueba).None? then
        reply == Fail(NOT_FOUND, PLAN_NOT_FOUND_MSG) && db.planPruebas == old(db.planPruebas)
      else
        reply == Done(OK, UPDATED_MSG) && db.planPruebas == PlansEdited(old(db.planPruebas), prueba, e, now)
  {
    if !EditValid(e) {
      return Fail(BAD_REQUEST, VALIDATION_ERRORS);
    }
    if header.NoToken? {
      return Fail(UNAUTHORIZED, NO_TOKEN_MSG);
    }
    if !header.verdict.Verified? {
      return Fail(SERVER_ERROR, UPDATE_ERROR_MSG);
    }
    if FindPlan(db.planPruebas, prueba).None? {
      return Fail(NOT_FOUND, PLAN_NOT_FOUND_MSG);
    }
    var before := db.planPruebas;
    var affected := PlanMatches(db.planPruebas, prueba);
    db.planPruebas := PlansEdited(db.planPruebas, prueba, e, now);
    forall p | p in db.planPruebas ensures p.id < db.nextPlanId {
      var k :| 0 <= k < |db.planPruebas| && db.planPruebas[k] == p;
      assert before[k] in before;
    }
    if affected == 0 {
      assert false;
      return Fail(NOT_FOUND, NOT_UPDATED_MSG);
    }
    return Done(OK, UPDATED_MSG);
  }

  // ---------------------------------------------------------------------
  // deletePrueba
  // ---------------------------------------------------------------------

  /** `DELETE FROM planPruebas WHERE id_plan = ?`. */
  function WithoutPlan(plans: seq<PlanPrueba>, id: int): seq<PlanPrueba> {
    WithoutKey(plans, PlanKey, id)
  }

  /** `deletePrueba`: removes the plans with that key and no other row;
      404 when none was affected. */
  method DeletePrueba(db: Database, pruebaSeleccionada: int) returns (reply: Reply<string>)
    requires db.Valid()
    modifies db`planPruebas
    ensures db.Valid()
    ensures db.planPruebas == WithoutPlan(old(db.planPruebas), pruebaSeleccionada)
    ensures reply == if PlanMatches(old(db.planPruebas), pruebaSeleccionada) == 0
      then Fail(NOT_FOUND, NO_PLAN_MSG) else Done(OK, DELETED_MSG)
  {
    var affected := PlanMatches(db.planPruebas, pruebaSeleccionada);
    db.planPruebas := WithoutPlan(db.planPruebas, pruebaSeleccionada);
    if affected == 0 {
      return Fail(NOT_FOUND, NO_PLAN_MSG);
    }
    return Done(OK, DELETED_MSG);
  }

  // ---------------------------------------------------------------------
  // Lookups
  // ---------------------------------------------------------------------

  /** A milestone as `getHItos` lists it. */
  datatype HitoResumen = HitoResumen(id: int, nombre: string, descripcion: string, estado: string)

  function Resumen(hitos: seq<Hito>, proyecto: int): (r: seq<HitoResumen>)
    ensures forall v :: v in r <==> exists h | h in hitos && h.idProyecto == proyecto ::
      v == HitoResumen(h.id, h.nombre, h.descripcion, h.estado)
  {
    if hitos == [] then []
    else
      var init := Resumen(hitos[..|hitos| - 1], proyecto);
      var last := hitos[|hitos| - 1];
      assert forall h | h in hitos :: h == last || h in hitos[..|hitos| - 1];
      assert forall h | h in hitos[..|hitos| - 1] :: h in hitos;
      if last.idProyecto == proyecto then init + [HitoResumen(last.id, last.nombre, last.descripcion, last.estado)] else init
  }

  /** `getHItos`: the project's milestones with their state, or 404. */
  function GetHitos(hitos: seq<Hito>, id: int): (r: Reply<seq<HitoResumen>>)
    ensures r.Fail? <==> forall h | h in hitos :: h.idProyecto != id
    ensures r.Fail? ==> r == Fail(NOT_FOUND, NO_HITOS_MSG)
    ensures r.Done? ==> r.code == OK && forall v :: v in r.body <==>
      exists h | h in hitos && h.idProyecto == id :: v == HitoResumen(h.id, h.nombre, h.descripcion, h.estado)
  {
    var rows := Resumen(hitos, id);
    if rows == [] then
      assert forall h | h in hitos && h.idProyecto == id :: HitoResumen(h.id, h.nombre, h.descripcion, h.estado) in rows;
      Fail(NOT_FOUND, NO_HITOS_MSG)
    else
      assert rows[0] in rows;
      Done(OK, rows)
  }

  /** The seven columns `getPruebaTest` selects: the key, the milestone and
      the five test fields, without the project key or the timestamps. */
  datatype PlanView = PlanView(
    id: int, hitoSeleccionado: int, resultadoEsperado: string, pruebaRealizada: string,
    estadoPrueba: string, criterioAceptacion: string, imagen: Option<string>)

  function ViewOf(p: PlanPrueba): PlanView {
    PlanView(p.id, p.hitoSeleccionado, p.resultadoEsperado, p.pruebaRealizada,
      p.estadoPrueba, p.criterioAceptacion, p.imagen)
  }

  /** `getPruebaTest`: the selected columns of the plan with that key, or 404. */
  function GetPruebaTest(plans: seq<PlanPrueba>, id: int): (r: Reply<PlanView>)
    ensures r.Fail? <==> forall p | p in plans :: p.id != id
    ensures r.Fail? ==> r == Fail(NOT_FOUND, NO_PLAN_MSG)
    ensures r.Done? ==> r.code == OK && r.body.id == id
    ensures r.Done? ==> exists p | p in plans && p.id == id :: r.body == ViewOf(p)
  {
    match FindPlan(plans, id)
    case None => Fail(NOT_FOUND, NO_PLAN_MSG)
    case Some(p) => Done(OK, ViewOf(p))
  }
}
