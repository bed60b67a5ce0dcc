/** controllers/tareasController.js: the signed-in user's open work, that is
    the projects they are responsible for that are in progress or suspended,
    with the same join and ordering as the project list. */
module Tareas {
  import opened Common
  import opened Schema
  import opened Sql
  import opened Proyectos

  const BAD_TOKEN_MSG := "Token no válido"
  const QUERY_ERROR_MSG := "Error en la consulta a la base de datos"

  /** The two states that count as open work. */
  predicate Open(p: Proyecto) {
    p.estado == "En progreso" || p.estado == "Suspendido"
  }

  /** The rows `getTareas` selects for user `userId`. */
  predicate IsTarea(p: Proyecto, userId: int, search: Option<string>) {
    p.idResponsable == userId && Open(p) && PassesSearch(p.nombre, search)
  }

  /** The owner, state and name filters of `getTareas`. */
  function TareaFilter(userId: int, search: Option<string>): Proyecto -> bool {
    (p: Proyecto) => IsTarea(p, userId, search)
  }

  const HEAD_TEXT := "SELECT p.proyecto_id, p.nombre, p.descripcion, p.fecha_inicio, p.fecha_finalizacion, p.estado, p.presupuesto, p.id_responsable, p.fecha_creacion, p.fecha_actualizacion, u.u_usuario FROM proyectos p JOIN users u ON p.id_responsable = u.id WHERE p.id_responsable = "
  const OPEN_TEXT := " AND (p.estado = \"En progreso\" OR p.estado = \"Suspendido\")"

  /** The query of `getTareas`: the user's key is always the first value. */
  method TareasQuery(userId: int, search: Option<string>) returns (q: Query)
    ensures Matched(q)
    ensures q.params == [Int(userId)] + if Searching(search) then [LikeParam(search.value)] else []
    ensures q.pieces != [] && q.pieces[|q.pieces| - 1] == Text(" ORDER BY proyecto_id DESC")
  {
    HolesCons(Text(HEAD_TEXT), []);
    q := Query([Text(HEAD_TEXT)], []);
    HolesCons(Hole, [Text(OPEN_TEXT)]);
    HolesCons(Text(OPEN_TEXT), []);
    q := Append(q, [Hole] + [Text(OPEN_TEXT)], [Int(userId)]);
    if Searching(search) {
      HolesCons(Text(" AND nombre LIKE "), [Hole]);
      HolesCons(Hole, []);
      q := Append(q, [Text(" AND nombre LIKE ")] + [Hole], [LikeParam(search.value)]);
    }
    assert q.params + [] == q.params;
    q := Append(q, [Text(" ORDER BY proyecto_id DESC")], []);
  }

  /** `getTareas`. A bad signature answers 401; an expired or not yet valid
      token falls to the generic 500 of the same `catch`. */
  function GetTareas(proyectos: seq<Proyecto>, users: seq<User>, header: Header, search: Option<string>): (r: Reply<seq<ProyectoRow>>)
    ensures header.NoToken? <==> r == Fail(UNAUTHORIZED, NO_TOKEN_MSG)
    ensures header == Token(JsonWebTokenError) <==> r == Fail(UNAUTHORIZED, BAD_TOKEN_MSG)
    ensures header.Token? && (header.verdict.TokenExpiredError? || header.verdict.NotBeforeError?) <==>
      r == Fail(SERVER_ERROR, QUERY_ERROR_MSG)
    ensures r.Done? ==> r.code == OK && header.Token? && header.verdict.Verified?
    ensures r.Done? ==> forall i, j | 0 <= i < j < |r.body| :: r.body[i].proyecto.id >= r.body[j].proyecto.id
    ensures r.Done? ==> multiset(r.body) == multiset(Join(proyectos, users, TareaFilter(header.verdict.user.id, search)))
    ensures r.Done? ==> forall row :: row in r.body <==>
      row.proyecto in proyectos && IsTarea(row.proyecto, header.verdict.user.id, search) &&
      row.usuario in Responsables(users, row.proyecto.idResponsable)
  {
    match header
    case NoToken => Fail(UNAUTHORIZED, NO_TOKEN_MSG)
    case Token(Verified(user)) =>
      Done(OK, Listed(proyectos, users, TareaFilter(user.id, search)))
    case Token(JsonWebTokenError) => Fail(UNAUTHORIZED, BAD_TOKEN_MSG)
    case Token(_) => Fail(SERVER_ERROR, QUERY_ERROR_MSG)
  }

  /** Every task is a row of the project list for the same search term. */
  lemma TareasInProyectos(proyectos: seq<Proyecto>, users: seq<User>, user: Claims, search: Option<string>)
    ensures var r := GetTareas(proyectos, users, Token(Verified(user)), search);
      r.Done? && forall row | row in r.body :: row in GetProyectos(proyectos, users, search)
  {
  }

  /** A finished project never appears, nor another user's project. */
  lemma TareasExclude(proyectos: seq<Proyecto>, users: seq<User>, user: Claims, search: Option<string>, row: ProyectoRow)
    requires row.proyecto.estado == "Finalizado" || row.proyecto.idResponsable != user.id
    ensures row !in GetTareas(proyectos, users, Token(Verified(user)), search).body
  {
  }
}
