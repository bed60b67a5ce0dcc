/** controllers/proyectoController.js: projects and their responsible
    user. Creating a project (dates in order, one per name and responsible),
    editing it (no date check), deleting it, and the list joined with the
    responsible's user name. */
module Proyectos {
  import opened Common
  import opened Schema
  import opened Sql
  import opened Sorting

  const NO_TOKEN_MSG := "Token de autenticación no proporcionado"
  const REGISTER_ERROR_MSG := "Error en el servidor al registrar el proyecto"
  const DATES_MSG := "La fecha de finalización no puede ser menor a la fecha de inicio"
  const ASSIGNED_MSG := "El proyecto ya fue asignado a un colaborador"
  const CREATED_MSG := "Proyecto registrado correctamente"
  const NOT_FOUND_MSG := "Proyecto no encontrado"
  const UPDATED_MSG := "Proyecto actualizado correctamente"
  const MISSING_MSG := "El protecto no existe"
  const DELETED_MSG := "Proyecto eliminado correctamente"
  const NO_USERS_MSG := "No hay usuarios que mostrar"
  const LOOKUP_MISSING_MSG := "Rol no encontrado"

  /** The body of a creation or edit request, with dates as day numbers and
      the budget in the smallest currency unit. */
  datatype ProyectoForm = ProyectoForm(
    nombre: string, descripcion: string, fechaInicio: int, fechaFin: int,
    estado: string, presupuesto: int, responsable: int)

  /** The text fields the validation chain requires to be non-empty. */
  predicate FormValid(f: ProyectoForm) {
    f.nombre != "" && f.descripcion != "" && f.estado != ""
  }

  /** `fin < inicio` is the only rejected order: equal dates pass. */
  predicate DatesOrdered(f: ProyectoForm) {
    !(f.fechaFin < f.fechaInicio)
  }

  /** A project with this name is already assigned to this responsible. */
  predicate Assigned(proyectos: seq<Proyecto>, nombre: string, responsable: int) {
    exists p | p in proyectos :: p.nombre == nombre && p.idResponsable == responsable
  }

  /** The row `register` inserts; both timestamps are `NOW()`. */
  function NewProyecto(id: int, f: ProyectoForm, now: DateTime): (p: Proyecto)
    ensures p.id == id && p.fechaCreacion == now && p.fechaActualizacion == now
    ensures p.nombre == f.nombre && p.idResponsable == f.responsable
    ensures p.fechaInicio == f.fechaInicio && p.fechaFinalizacion == f.fechaFin
  {
    Proyecto(id, f.nombre, f.descripcion, f.fechaInicio, f.fechaFin, f.estado, f.presupuesto, f.responsable, now, now)
  }

  /** `register`. The token is checked but its contents are not used. */
  method Register(db: Database, f: ProyectoForm, header: Header, now: DateTime) returns (reply: Reply<string>)
    requires db.Valid()
    modifies db`proyectos, db`nextProyectoId
    ensures db.Valid()
    ensures !FormValid(f) ==> reply == Fail(BAD_REQUEST, VALIDATION_ERRORS) && unchanged(db)
    ensures FormValid(f) && header.NoToken? ==> reply == Fail(UNAUTHORIZED, NO_TOKEN_MSG) && unchanged(db)
    ensures FormValid(f) && header.Token? && !header.verdict.Verified? ==>
      reply == Fail(SERVER_ERROR, REGISTER_ERROR_MSG) && unchanged(db)
    ensures FormValid(f) && header.Token? && header.verdict.Verified? && !DatesOrdered(f) ==>
      reply == Fail(BAD_REQUEST, DATES_MSG) && unchanged(db)
    ensures FormValid(f) && header.Token? && header.verdict.Verified? && DatesOrdered(f) ==>
      if Assigned(old(db.proyectos), f.nombre, f.responsable) then
        reply == Fail(BAD_REQUEST, ASSIGNED_MSG) && unchanged(db)
      else
        reply == Done(CREATED, CREATED_MSG) &&
        db.proyectos == old(db.proyectos) + [NewProyecto(old(db.nextProyectoId), f, now)] &&
        db.nextProyectoId == old(db.nextProyectoId) + 1
  {
    if !FormValid(f) {
      return Fail(BAD_REQUEST, VALIDATION_ERRORS);
    }
    if header.NoToken? {
      return Fail(UNAUTHORIZED, NO_TOKEN_MSG);
    }
    if !header.verdict.Verified? {
      return Fail(SERVER_ERROR, REGISTER_ERROR_MSG);
    }
    if f.fechaFin < f.fechaInicio {
      return Fail(BAD_REQUEST, DATES_MSG);
    }
    if Assigned(db.proyectos, f.nombre, f.responsable) {
      return Fail(BAD_REQUEST, ASSIGNED_MSG);
    }
    db.proyectos := db.proyectos + [NewProyecto(db.nextProyectoId, f, now)];
    db.nextProyectoId := db.nextProyectoId + 1;
    return Done(CREATED, CREATED_MSG);
  }

  /** Every project `register` creates ends no earlier than it starts, and
      the (name, responsible) pair stays unique. */
  lemma RegisterKeepsInvariants(proyectos: seq<Proyecto>, id: int, f: ProyectoForm, now: DateTime)
    requires forall i, j | 0 <= i < j < |proyectos| ::
      !(proyectos[i].nombre == proyectos[j].nombre && proyectos[i].idResponsable == proyectos[j].idResponsable)
    requires DatesOrdered(f) && !Assigned(proyectos, f.nombre, f.responsable)
    ensures var after := proyectos + [NewProyecto(id, f, now)];
      forall i, j | 0 <= i < j < |after| ::
        !(after[i].nombre == after[j].nombre && after[i].idResponsable == after[j].idResponsable)
    ensures NewProyecto(id, f, now).fechaInicio <= NewProyecto(id, f, now).fechaFinalizacion
  {
    var after := proyectos + [NewProyecto(id, f, now)];
    forall i, j | 0 <= i < j < |after|
      ensures !(after[i].nombre == after[j].nombre && after[i].idResponsable == after[j].idResponsable)
    {
      if j == |proyectos| {
        assert after[i] in proyectos;
      } else {
        assert after[i] == proyectos[i] && after[j] == proyectos[j];
      }
    }
  }

  /** The duplicate check is on the pair: the same name under another
      responsible is not a duplicate. */
  lemma SameNameOtherResponsable()
    ensures var d := DateTime(2024, 0, 1, 0, 0, 0);
      var proyectos := [Proyecto(1, "Portal", "", 10, 20, "En progreso", 0, 7, d, d)];
      !Assigned(proyectos, "Portal", 8) && Assigned(proyectos, "Portal", 7)
  {
    var d := DateTime(2024, 0, 1, 0, 0, 0);
    var proyectos := [Proyecto(1, "Portal", "", 10, 20, "En progreso", 0, 7, d, d)];
    assert proyectos[0] in proyectos;
  }

  // ---------------------------------------------------------------------
  // editProyectos
  // ---------------------------------------------------------------------

  /** `SELECT ... FROM proyectos WHERE proyecto_id = ?`: the first row with that key. */
  function FindProyecto(proyectos: seq<Proyecto>, id: int): Option<Proyecto> {
    FindKey(proyectos, ProyectoKey, id)
  }

  /** The edited row: every form field, and `fecha_actualizacion = NOW()`;
      the key and the creation time stay. */
  function EditedRow(p: Proyecto, f: ProyectoForm, now: DateTime): (r: Proyecto)
    ensures r.id == p.id && r.fechaCreacion == p.fechaCreacion && r.fechaActualizacion == now
    ensures r == NewProyecto(p.id, f, now).(fechaCreacion := p.fechaCreacion)
  {
    p.(nombre := f.nombre, descripcion := f.descripcion, fechaInicio := f.fechaInicio,
       fechaFinalizacion := f.fechaFin, estado := f.estado, presupuesto := f.presupuesto,
       idResponsable := f.responsable, fechaActualizacion := now)
  }

  /** `UPDATE proyectos SET ... WHERE proyecto_id = ?`. */
  function Updated(proyectos: seq<Proyecto>, id: int, f: ProyectoForm, now: DateTime): (r: seq<Proyecto>)
    ensures |r| == |proyectos|
    ensures forall k | 0 <= k < |proyectos| ::
      r[k] == if proyectos[k].id == id then EditedRow(proyectos[k], f, now) else proyectos[k]
  {
    seq(|proyectos|, k requires 0 <= k < |proyectos| =>
      if proyectos[k].id == id then EditedRow(proyectos[k], f, now) else proyectos[k])
  }

  /** `editProyectos`: unlike `register`, no date order and no duplicate
      check. */
  method EditProyectos(db: Database, id: int, f: ProyectoForm, now: DateTime) returns (reply: Reply<string>)
    requires db.Valid()
    modifies db`proyectos
    ensures db.Valid()
    ensures !FormValid(f) ==> reply == Fail(BAD_REQUEST, VALIDATION_ERRORS) && db.proyectos == old(db.proyectos)
    ensures FormValid(f) && FindProyecto(old(db.proyectos), id).None? ==>
      reply == Fail(NOT_FOUND, NOT_FOUND_MSG) && db.proyectos == old(db.proyectos)
    ensures FormValid(f) && FindProyecto(old(db.proyectos), id).Some? ==>
      reply == Done(OK, UPDATED_MSG) && db.proyectos == Updated(old(db.proyectos), id, f, now)
  {
    if !FormValid(f) {
      return Fail(BAD_REQUEST, VALIDATION_ERRORS);
    }
    if FindProyecto(db.proyectos, id).None? {
      return Fail(NOT_FOUND, NOT_FOUND_MSG);
    }
    var before := db.proyectos;
    db.proyectos := Updated(db.proyectos, id, f, now);
    forall p | p in db.proyectos ensures p.id < db.nextProyectoId {
      var k :| 0 <= k < |db.proyectos| && db.proyectos[k] == p;
      assert before[k] in before;
    }
    return Done(OK, UPDATED_MSG);
  }

  /** An edit can store a project that ends before it starts, which
      `register` refuses. */
  lemma EditAllowsReversedDates()
    ensures var d := DateTime(2024, 0, 1, 0, 0, 0);
      var f := ProyectoForm("Portal", "web", 20, 10, "En progreso", 0, 7);
      var after := Updated([Proyecto(1, "Portal", "web", 10, 20, "En progreso", 0, 7, d, d)], 1, f, d);
      !DatesOrdered(f) && after[0].fechaFinalizacion < after[0].fechaInicio
  {
  }

  // ---------------------------------------------------------------------
  // deleteProyecto
  // ---------------------------------------------------------------------

  /** `DELETE FROM proyectos WHERE proyecto_id = ?`. */
  function WithoutProyecto(proyectos: seq<Proyecto>, id: int): seq<Proyecto> {
    WithoutKey(proyectos, ProyectoKey, id)
  }

  /** The number of rows the delete removes, its `affectedRows`. */
  function CountId(proyectos: seq<Proyecto>, id: int): nat {
    CountKey(proyectos, ProyectoKey, id)
  }

  /** `deleteProyecto`: 404 when no row was affected. */
  method DeleteProyecto(db: Database, id: int) returns (reply: Reply<string>)
    requires db.Valid()
    modifies db`proyectos
    ensures db.Valid()
    ensures db.proyectos == WithoutProyecto(old(db.proyectos), id)
    ensures reply == if CountId(old(db.proyectos), id) == 0 then Fail(NOT_FOUND, MISSING_MSG) else Done(OK, DELETED_MSG)
  {
    var affected := CountId(db.proyectos, id);
    db.proyectos := WithoutProyecto(db.proyectos, id);
    if affected == 0 {
      return Fail(NOT_FOUND, MISSING_MSG);
    }
    return Done(OK, DELETED_MSG);
  }

  // ---------------------------------------------------------------------
  // getProyectos: proyectos JOIN users, filtered, newest first
  // ---------------------------------------------------------------------

  /** A project with its responsible's `u_usuario`. */
  datatype ProyectoRow = ProyectoRow(proyecto: Proyecto, usuario: string)

  /** The user names the join pairs a project with: those of the users
      whose key is the project's `id_responsable`. */
  function Responsables(users: seq<User>, id: int): (r: seq<string>)
    ensures forall n :: n in r <==> exists u | u in users :: u.id == id && u.usuario == n
  {
    if users == [] then []
    else
      var init := Responsables(users[..|users| - 1], id);
      var last := users[|users| - 1];
      assert forall u | u in users :: u == last || u in users[..|users| - 1];
      assert forall u | u in users[..|users| - 1] :: u in users;
      if last.id == id then init + [last.usuario] else init
  }

  function Paired(p: Proyecto, names: seq<string>): (r: seq<ProyectoRow>)
    ensures forall row :: row in r <==> row.proyecto == p && row.usuario in names
  {
    if names == [] then []
    else
      assert forall n | n in names :: n == names[0] || n in names[1..];
      [ProyectoRow(p, names[0])] + Paired(p, names[1..])
  }

  /** `proyectos p JOIN users u ON p.id_responsable = u.id`, keeping the
      projects that satisfy `keep`, project by project in table order. */
  function Join(proyectos: seq<Proyecto>, users: seq<User>, keep: Proyecto -> bool): (r: seq<ProyectoRow>)
    ensures forall row :: row in r <==>
      row.proyecto in proyectos && keep(row.proyecto) && row.usuario in Responsables(users, row.proyecto.idResponsable)
  {
    if proyectos == [] then []
    else
      var init := Join(proyectos[..|proyectos| - 1], users, keep);
      var last := proyectos[|proyectos| - 1];
      assert forall p | p in proyectos :: p == last || p in proyectos[..|proyectos| - 1];
      assert forall p | p in proyectos[..|proyectos| - 1] :: p in proyectos;
      if keep(last) then init + Paired(last, Responsables(users, last.idResponsable)) else init
  }

  function ByIdDesc(row: ProyectoRow): Key {
    (-row.proyecto.id, 0, 0)
  }

  /** The join, newest project first. */
  function Listed(proyectos: seq<Proyecto>, users: seq<User>, keep: Proyecto -> bool): (r: seq<ProyectoRow>)
    ensures forall i, j | 0 <= i < j < |r| :: r[i].proyecto.id >= r[j].proyecto.id
    ensures multiset(r) == multiset(Join(proyectos, users, keep))
    ensures forall row :: row in r <==>
      row.proyecto in proyectos && keep(row.proyecto) && row.usuario in Responsables(users, row.proyecto.idResponsable)
  {
    var rows := SortBy(Join(proyectos, users, keep), ByIdDesc);
    SortByMembers(Join(proyectos, users, keep), ByIdDesc);
    assert forall i, j | 0 <= i < j < |rows| :: KeyLe(ByIdDesc(rows[i]), ByIdDesc(rows[j]));
    rows
  }

  /** The `WHERE nombre LIKE ?` filter of the project list. */
  function NameFilter(search: Option<string>): Proyecto -> bool {
    (p: Proyecto) => PassesSearch(p.nombre, search)
  }

  /** `getProyectos`: the projects whose name contains the search term,
      each with its responsible's user name, newest first. A project whose
      responsible is not a user is not listed. Its query is
      `Sql.SearchQuery` over the join, filtered on `nombre` and ordered by
      `proyecto_id DESC`; the rows are modelled here directly. */
  function GetProyectos(proyectos: seq<Proyecto>, users: seq<User>, search: Option<string>): (r: seq<ProyectoRow>)
    ensures forall i, j | 0 <= i < j < |r| :: r[i].proyecto.id >= r[j].proyecto.id
    ensures multiset(r) == multiset(Join(proyectos, users, NameFilter(search)))
    ensures forall row :: row in r <==>
      row.proyecto in proyectos && PassesSearch(row.proyecto.nombre, search) &&
      exists u | u in users :: u.id == row.proyecto.idResponsable && u.usuario == row.usuario
  {
    Listed(proyectos, users, NameFilter(search))
  }

  /** Without a responsible user a project is absent from the list, even
      with no search term. */
  lemma OrphanNotListed(proyectos: seq<Proyecto>, users: seq<User>, p: Proyecto)
    requires forall u | u in users :: u.id != p.idResponsable
    ensures forall row | row in GetProyectos(proyectos, users, None) :: row.proyecto != p
  {
  }

  /** `getProyecto`: the first joined row for the key, or 404 with the
      role message. */
  function GetProyecto(proyectos: seq<Proyecto>, users: seq<User>, id: int): (r: Reply<ProyectoRow>)
    ensures r.Fail? ==> r == Fail(NOT_FOUND, LOOKUP_MISSING_MSG)
    ensures r.Fail? <==> forall p, u | p in proyectos && p.id == id && u in users :: u.id != p.idResponsable
    ensures r.Done? ==> r.code == OK && r.body.proyecto in proyectos && r.body.proyecto.id == id
    ensures r.Done? ==> exists u | u in users :: u.id == r.body.proyecto.idResponsable && u.usuario == r.body.usuario
  {
    var rows := Join(proyectos, users, (p: Proyecto) => p.id == id);
    assert forall p, u | p in proyectos && p.id == id && u in users && u.id == p.idResponsable ::
      ProyectoRow(p, u.usuario) in rows;
    if rows == [] then
      Fail(NOT_FOUND, LOOKUP_MISSING_MSG)
    else
      assert rows[0] in rows;
      Done(OK, rows[0])
  }

  /** `getResponsable`: key and user name of every user, or 404 when there
      are none. */
  datatype Responsable = Responsable(id: int, usuario: string)

  function GetResponsable(users: seq<User>): (r: Reply<seq<Responsable>>)
    ensures r.Fail? <==> users == []
    ensures r.Fail? ==> r == Fail(NOT_FOUND, NO_USERS_MSG)
    ensures r.Done? ==> r.code == OK && |r.body| == |users|
    ensures r.Done? ==> forall k | 0 <= k < |users| :: r.body[k] == Responsable(users[k].id, users[k].usuario)
  {
    if users == [] then Fail(NOT_FOUND, NO_USERS_MSG)
    else Done(OK, seq(|users|, k requires 0 <= k < |users| => Responsable(users[k].id, users[k].usuario)))
  }
}
