/** controllers/graficaController.js: the three dashboard handlers. Each one
    checks the token, builds its query by appending fragments and pushing
    values, runs it, and folds the rows into chart data. */
module Grafica {
  import opened Common
  import opened Schema
  import opened Sql

  // ---------------------------------------------------------------------
  // Guards shared by the three handlers
  // ---------------------------------------------------------------------

  /** Which projects a request may see: all of them, or those whose
      `id_responsable` is the `id` route parameter. */
  datatype Scope = Admin | Owner(id: int)

  /** The `startDate`/`endDate` query parameters as day numbers; `None` is an
      absent or empty parameter, which is falsy. */
  datatype DateFilter = NoDates | Between(from: int, to: int)

  /** `fechaInicio && fechaFin`: the range applies only when both are given. */
  function DateFilterOf(startDate: Option<int>, endDate: Option<int>): (f: DateFilter)
    ensures f.Between? <==> startDate.Some? && endDate.Some?
    ensures f.Between? ==> f.from == startDate.value && f.to == endDate.value
  {
    if startDate.Some? && endDate.Some? then Between(startDate.value, endDate.value) else NoDates
  }

  const NO_TOKEN_MSG := "Token de autenticación no proporcionado"
  const BAD_ROL_MSG := "Rol no válido en el token"
  const NO_ID_MSG := "ID de usuario no proporcionado"
  const SERVER_MSG := "Error en el servidor"
  const NO_PROYECTOS_MSG := "No se encontraron proyectos"

  /** The checks every handler makes before it queries, in source order: a
      header, a token `jwt.verify` accepts (a rejected one lands in the catch
      block), a role claim, and for a non-admin an `id` parameter. `id` is
      `None` for a missing or empty parameter. */
  function Access(header: Header, id: Option<int>): (r: Reply<Scope>)
    ensures header.NoToken? <==> r == Fail(UNAUTHORIZED, NO_TOKEN_MSG)
    ensures header.Token? && !header.verdict.Verified? ==> r == Fail(SERVER_ERROR, SERVER_MSG)
    ensures header.Token? && header.verdict.Verified? && RolMissing(header.verdict.user) ==>
      r == Fail(FORBIDDEN, BAD_ROL_MSG)
    ensures r.Fail? && r.code == BAD_REQUEST <==>
      header.Token? && header.verdict.Verified? && !RolMissing(header.verdict.user) &&
      header.verdict.user.rol != Some(1) && id.None?
    ensures r.Done? ==> r.code == OK && header.Token? && header.verdict.Verified? && !RolMissing(header.verdict.user)
    ensures r.Done? ==> (r.body.Admin? <==> header.verdict.user.rol == Some(1))
    ensures r.Done? && r.body.Owner? ==> id == Some(r.body.id)
  {
    match header
    case NoToken => Fail(UNAUTHORIZED, NO_TOKEN_MSG)
    case Token(v) =>
      if !v.Verified? then Fail(SERVER_ERROR, SERVER_MSG)
      else if RolMissing(v.user) then Fail(FORBIDDEN, BAD_ROL_MSG)
      else if v.user.rol == Some(1) then Done(OK, Admin)
      else if id.None? then Fail(BAD_REQUEST, NO_ID_MSG)
      else Done(OK, Owner(id.value))
  }

  // ---------------------------------------------------------------------
  // Query builders
  // ---------------------------------------------------------------------

  const OWNER_TEXT := " WHERE id_responsable = "

  /** The query filters on `id_responsable`. */
  predicate OwnerFiltered(q: Query) {
    Text(OWNER_TEXT) in q.pieces
  }

  function OwnerParams(scope: Scope): seq<Param> {
    if scope.Admin? then [] else [Int(scope.id)]
  }

  function RangeParams(dates: DateFilter): seq<Param> {
    if dates.NoDates? then [] else [Int(dates.from), Int(dates.to)]
  }

  /** Appending a fragment adds the owner filter exactly when the fragment
      holds it. */
  function AppendScoped(q: Query, fragment: seq<Piece>, values: seq<Param>): (r: Query)
    requires Holes(fragment) == |values|
    ensures r == Append(q, fragment, values)
    ensures OwnerFiltered(r) <==> OwnerFiltered(q) || Text(OWNER_TEXT) in fragment
  {
    Append(q, fragment, values)
  }

  /** `WHERE id_responsable = ?`. */
  function OwnerFilter(): (f: seq<Piece>)
    ensures Holes(f) == 1 && Text(OWNER_TEXT) in f
  {
    HolesCons(Text(OWNER_TEXT), [Hole]);
    HolesCons(Hole, []);
    [Text(OWNER_TEXT)] + [Hole]
  }

  /** `column BETWEEN ? AND ?`. */
  function RangeTest(column: string): (f: seq<Piece>)
    ensures Holes(f) == 2 && Text(OWNER_TEXT) !in f
  {
    var head := column + " BETWEEN ";
    assert head != OWNER_TEXT by {
      if |head| == |OWNER_TEXT| {
        assert head[|head| - 2] == 'N' && OWNER_TEXT[|OWNER_TEXT| - 2] == '=';
      }
    }
    HolesCons(Hole, []);
    HolesCons(Text(" AND "), [Hole]);
    HolesCons(Hole, [Text(" AND ")] + [Hole]);
    HolesCons(Text(head), [Hole] + ([Text(" AND ")] + [Hole]));
    [Text(head)] + ([Hole] + ([Text(" AND ")] + [Hole]))
  }

  /** `fragment` between an opening and a closing text. */
  function Enclosed(open: string, fragment: seq<Piece>, close: string): (f: seq<Piece>)
    requires |open| < |OWNER_TEXT| && |close| < |OWNER_TEXT|
    ensures Holes(f) == Holes(fragment)
    ensures Text(OWNER_TEXT) in f <==> Text(OWNER_TEXT) in fragment
  {
    HolesCons(Text(open), fragment + [Text(close)]);
    HolesConcat(fragment, [Text(close)]);
    HolesCons(Text(close), []);
    [Text(open)] + (fragment + [Text(close)])
  }

  /** `open fecha_inicio BETWEEN ? AND ?) OR (fecha_finalizacion BETWEEN ? AND ? close`. */
  function EitherDateInRange(open: string, close: string): (f: seq<Piece>)
    requires |open| < |OWNER_TEXT| && |close| < |OWNER_TEXT|
    ensures Holes(f) == 4 && Text(OWNER_TEXT) !in f
  {
    var second := Enclosed(") OR (", RangeTest("fecha_finalizacion"), close);
    HolesConcat(RangeTest("fecha_inicio"), second);
    Enclosed(open, RangeTest("fecha_inicio") + second, "")
  }

  /** The range fragments of the three builders, each the text the source
      appends when both dates are given. */
  const ADMIN_DUE_RANGE: seq<Piece> := Enclosed(" WHERE (", RangeTest("fecha_finalizacion"), ")")
  const OWNER_DUE_RANGE: seq<Piece> := Enclosed(" AND (", RangeTest("fecha_finalizacion"), ")")
  const ADMIN_EITHER_RANGE: seq<Piece> := EitherDateInRange(" WHERE (", ")")
  const ADMIN_AND_EITHER_RANGE: seq<Piece> := EitherDateInRange(" AND (", ")")
  const OWNER_EITHER_RANGE: seq<Piece> := EitherDateInRange(" AND ((", "))")

  const DUE_HEAD := "SELECT fecha_finalizacion, nombre FROM proyectos"
  const ESTADO_HEAD := "SELECT estado, fecha_inicio, fecha_finalizacion FROM proyectos"

  /** A query that is one SELECT text without placeholders or owner filter. */
  function Start(head: string): (q: Query)
    requires |head| != |OWNER_TEXT|
    ensures Matched(q) && !OwnerFiltered(q) && q.params == []
  {
    HolesCons(Text(head), []);
    assert [Text(head)] + [] == [Text(head)];
    assert Text(head) != Text(OWNER_TEXT);
    Query([Text(head)], [])
  }

  /** The query of `getVencimientoProyectos`. */
  method DueQuery(scope: Scope, dates: DateFilter) returns (q: Query)
    ensures Matched(q)
    ensures q.params == OwnerParams(scope) + RangeParams(dates)
    ensures OwnerFiltered(q) <==> scope.Owner?
  {
    q := Start(DUE_HEAD);
    var range := RangeParams(dates);
    if scope.Admin? {
      if dates.Between? {
        q := AppendScoped(q, ADMIN_DUE_RANGE, range);
      }
    } else {
      q := AppendScoped(q, OwnerFilter(), [Int(scope.id)]);
      if dates.Between? {
        q := AppendScoped(q, OWNER_DUE_RANGE, range);
      }
    }
  }

  /** The query of `getEstadoProyectos`: the range is tested on both dates. */
  method EstadoQuery(scope: Scope, dates: DateFilter) returns (q: Query)
    ensures Matched(q)
    ensures q.params == OwnerParams(scope) + (RangeParams(dates) + RangeParams(dates))
    ensures OwnerFiltered(q) <==> scope.Owner?
  {
    q := Start(ESTADO_HEAD);
    var range := RangeParams(dates);
    if scope.Admin? {
      if dates.Between? {
        q := AppendScoped(q, ADMIN_EITHER_RANGE, range + range);
      } else {
        assert range + range == [];
      }
      assert q.params == range + range;
    } else {
      q := AppendScoped(q, OwnerFilter(), [Int(scope.id)]);
      assert q.params == [Int(scope.id)];
      if dates.Between? {
        q := AppendScoped(q, OWNER_EITHER_RANGE, range + range);
      } else {
        assert [Int(scope.id)] + (range + range) == [Int(scope.id)];
      }
    }
  }

  /** The `WHERE` part of the `getEstadoPrueba` query, appended to `q`. The
      admin range follows `WHERE 1=1` without parentheses, which selects the
      same rows since `1=1` holds. */
  method PruebaWhere(q0: Query, scope: Scope, dates: DateFilter) returns (q: Query)
    ensures Matched(q0) ==> Matched(q)
    ensures q.params == q0.params + (OwnerParams(scope) + (RangeParams(dates) + RangeParams(dates)))
    ensures OwnerFiltered(q) <==> OwnerFiltered(q0) || scope.Owner?
  {
    if scope.Admin? {
      q := AdminWhere(q0, dates);
      assert OwnerParams(scope) + (RangeParams(dates) + RangeParams(dates)) == RangeParams(dates) + RangeParams(dates);
    } else {
      q := OwnerWhere(q0, scope.id, dates);
    }
  }

  /** The administrator's branch: `WHERE 1=1`, then the range when given. */
  method AdminWhere(q0: Query, dates: DateFilter) returns (q: Query)
    ensures Matched(q0) ==> Matched(q)
    ensures q.params == q0.params + (RangeParams(dates) + RangeParams(dates))
    ensures OwnerFiltered(q) <==> OwnerFiltered(q0)
  {
    var range := RangeParams(dates);
    assert q0.params + [] == q0.params;
    assert Text(" WHERE 1=1") != Text(OWNER_TEXT);
    HolesCons(Text(" WHERE 1=1"), []);
    q := AppendScoped(q0, [Text(" WHERE 1=1")], []);
    if dates.Between? {
      q := AppendScoped(q, ADMIN_AND_EITHER_RANGE, range + range);
    } else {
      assert range + range == [];
    }
  }

  /** A user's branch: the owner filter, then the range when given. */
  method OwnerWhere(q0: Query, id: int, dates: DateFilter) returns (q: Query)
    ensures Matched(q0) ==> Matched(q)
    ensures q.params == q0.params + ([Int(id)] + (RangeParams(dates) + RangeParams(dates)))
    ensures OwnerFiltered(q)
  {
    var range := RangeParams(dates);
    q := AppendScoped(q0, OwnerFilter(), [Int(id)]);
    if dates.Between? {
      q := AppendScoped(q, OWNER_EITHER_RANGE, range + range);
      ParamsAssoc(q0.params, [Int(id)], range + range);
    } else {
      assert [Int(id)] + (range + range) == [Int(id)];
    }
  }


  const GROUP_TEXT := " GROUP BY p.proyecto_id, pp.estado_prueba"

  /** The query of `getEstadoPrueba`: a left join of the projects with their
      test plans, grouped by project and test state. */
  method PruebaQuery(scope: Scope, dates: DateFilter) returns (q: Query)
    ensures Matched(q)
    ensures q.params == OwnerParams(scope) + (RangeParams(dates) + RangeParams(dates))
    ensures OwnerFiltered(q) <==> scope.Owner?
    ensures q.pieces != [] && q.pieces[|q.pieces| - 1] == Text(GROUP_TEXT)
  {
    q := Query([Text("SELECT p.proyecto_id, p.nombre, pp.estado_prueba, COUNT(pp.estado_prueba) AS cantidad"),
      Text(" FROM proyectos p LEFT JOIN planPruebas pp ON p.proyecto_id = pp.id_proyecto")], []);
    q := PruebaWhere(q, scope, dates);
    assert q.params + [] == q.params;
    q := AppendScoped(q, [Text(GROUP_TEXT)], []);
  }

  // ---------------------------------------------------------------------
  // What the two project queries select
  // ---------------------------------------------------------------------

  predicate InScope(p: Proyecto, scope: Scope) {
    scope.Admin? || p.idResponsable == scope.id
  }

  /** `x BETWEEN from AND to`, or no range. */
  predicate InRangeOf(x: int, dates: DateFilter) {
    dates.NoDates? || dates.from <= x <= dates.to
  }

  /** A row of the `getVencimientoProyectos` query. */
  datatype DueRow = DueRow(fechaFinalizacion: int, nombre: string)

  /** The rows of the `getVencimientoProyectos` query, in table order. */
  function DueRows(proyectos: seq<Proyecto>, scope: Scope, dates: DateFilter): (rows: seq<DueRow>)
    ensures |rows| <= |proyectos|
    ensures forall x :: x in rows <==>
      exists p | p in proyectos :: InScope(p, scope) && InRangeOf(p.fechaFinalizacion, dates) &&
        x == DueRow(p.fechaFinalizacion, p.nombre)
  {
    if proyectos == [] then []
    else
      var p := proyectos[0];
      assert forall q | q in proyectos :: q == p || q in proyectos[1..];
      (if InScope(p, scope) && InRangeOf(p.fechaFinalizacion, dates) then [DueRow(p.fechaFinalizacion, p.nombre)] else [])
      + DueRows(proyectos[1..], scope, dates)
  }

  /** A row of the `getEstadoProyectos` query. */
  datatype EstadoRow = EstadoRow(estado: string, fechaInicio: int, fechaFinalizacion: int)

  /** The rows of the `getEstadoProyectos` query: a project qualifies when
      either of its dates lies in the range. */
  function EstadoRows(proyectos: seq<Proyecto>, scope: Scope, dates: DateFilter): (rows: seq<EstadoRow>)
    ensures |rows| <= |proyectos|
    ensures forall x :: x in rows <==>
      exists p | p in proyectos :: InScope(p, scope) &&
        (InRangeOf(p.fechaInicio, dates) || InRangeOf(p.fechaFinalizacion, dates)) &&
        x == EstadoRow(p.estado, p.fechaInicio, p.fechaFinalizacion)
  {
    if proyectos == [] then []
    else
      var p := proyectos[0];
      assert forall q | q in proyectos :: q == p || q in proyectos[1..];
      (if InScope(p, scope) && (InRangeOf(p.fechaInicio, dates) || InRangeOf(p.fechaFinalizacion, dates))
       then [EstadoRow(p.estado, p.fechaInicio, p.fechaFinalizacion)] else [])
      + EstadoRows(proyectos[1..], scope, dates)
  }

  // ---------------------------------------------------------------------
  // getVencimientoProyectos: overdue or not
  // ---------------------------------------------------------------------

  /** `moment(fecha).isBefore(today, 'day')`. */
  predicate Overdue(r: DueRow, today: int) {
    r.fechaFinalizacion < today
  }

  /** The names `forEach` pushes into `vencidos`, in row order. */
  function OverdueNames(rows: seq<DueRow>, today: int): seq<string>
  {
    if rows == [] then []
    else
      var last := rows[|rows| - 1];
      OverdueNames(rows[..|rows| - 1], today) + (if Overdue(last, today) then [last.nombre] else [])
  }

  /** The names `forEach` pushes into `noVencidos`, in row order. */
  function OnTimeNames(rows: seq<DueRow>, today: int): seq<string>
  {
    if rows == [] then []
    else
      var last := rows[|rows| - 1];
      OnTimeNames(rows[..|rows| - 1], today) + (if Overdue(last, today) then [] else [last.nombre])
  }

  function Names(rows: seq<DueRow>): (s: seq<string>)
    ensures |s| == |rows| && forall k | 0 <= k < |rows| :: s[k] == rows[k].nombre
  {
    seq(|rows|, k requires 0 <= k < |rows| => rows[k].nombre)
  }

  /** `a` is `b` with some elements dropped, the rest in their order. */
  predicate Subsequence<T(==)>(a: seq<T>, b: seq<T>)
    decreases |b|
  {
    if a == [] then true
    else if b == [] then false
    else if a[|a| - 1] == b[|b| - 1] then Subsequence(a[..|a| - 1], b[..|b| - 1])
    else Subsequence(a, b[..|b| - 1])
  }

  lemma {:induction false} SubsequenceSkip<T>(a: seq<T>, b: seq<T>, x: T)
    requires Subsequence(a, b)
    ensures Subsequence(a, b + [x])
    decreases |b|, 1
  {
    assert (b + [x])[..|b|] == b;
    if a != [] && a[|a| - 1] == x {
      SubsequenceDrop(a, b);
    }
  }

  lemma {:induction false} SubsequenceDrop<T>(a: seq<T>, b: seq<T>)
    requires a != [] && Subsequence(a, b)
    ensures Subsequence(a[..|a| - 1], b)
    decreases |b|, 0
  {
    var init := b[..|b| - 1];
    assert init + [b[|b| - 1]] == b;
    if a[|a| - 1] != b[|b| - 1] {
      SubsequenceDrop(a, init);
    }
    SubsequenceSkip(a[..|a| - 1], init, b[|b| - 1]);
  }

  lemma {:induction false} SubsequenceSnoc<T>(a: seq<T>, b: seq<T>, x: T)
    requires Subsequence(a, b)
    ensures Subsequence(a + [x], b + [x])
  {
    assert (a + [x])[..|a|] == a && (b + [x])[..|b|] == b;
  }

  /** The classification covers every row once: the two lists together hold
      exactly the names of the rows, so their lengths add up to the row
      count. */
  lemma {:induction false} DueCounts(rows: seq<DueRow>, today: int)
    ensures multiset(OverdueNames(rows, today)) + multiset(OnTimeNames(rows, today)) == multiset(Names(rows))
    ensures |OverdueNames(rows, today)| + |OnTimeNames(rows, today)| == |rows|
  {
    if rows != [] {
      var init, last := rows[..|rows| - 1], rows[|rows| - 1];
      DueCounts(init, today);
      assert Names(rows) == Names(init) + [last.nombre];
    }
    assert |multiset(Names(rows))| == |rows|;
  }

  /** Each list keeps the order of the rows. */
  lemma {:induction false} DueOrder(rows: seq<DueRow>, today: int)
    ensures Subsequence(OverdueNames(rows, today), Names(rows))
    ensures Subsequence(OnTimeNames(rows, today), Names(rows))
  {
    if rows != [] {
      var init, last := rows[..|rows| - 1], rows[|rows| - 1];
      DueOrder(init, today);
      assert Names(rows) == Names(init) + [last.nombre];
      var o, t := OverdueNames(init, today), OnTimeNames(init, today);
      assert o + [] == o && t + [] == t;
      if Overdue(last, today) {
        SubsequenceSnoc(o, Names(init), last.nombre);
        SubsequenceSkip(t, Names(init), last.nombre);
      } else {
        SubsequenceSkip(o, Names(init), last.nombre);
        SubsequenceSnoc(t, Names(init), last.nombre);
      }
    }
  }

  /** A name is in `vencidos` exactly when one of its rows ends before today,
      and in `noVencidos` exactly when one of its rows does not. */
  lemma {:induction false} DueMembers(rows: seq<DueRow>, today: int)
    ensures forall n :: n in OverdueNames(rows, today) <==> exists r | r in rows :: Overdue(r, today) && r.nombre == n
    ensures forall n :: n in OnTimeNames(rows, today) <==> exists r | r in rows :: !Overdue(r, today) && r.nombre == n
  {
    if rows != [] {
      var init, last := rows[..|rows| - 1], rows[|rows| - 1];
      DueMembers(init, today);
      assert forall r | r in rows :: r == last || r in init;
      assert forall r | r in init :: r in rows;
    }
  }

  /** The `forEach` of `getVencimientoProyectos`. */
  method ClassifyDue(rows: seq<DueRow>, today: int) returns (vencidos: seq<string>, noVencidos: seq<string>)
    ensures vencidos == OverdueNames(rows, today)
    ensures noVencidos == OnTimeNames(rows, today)
  {
    vencidos, noVencidos := [], [];
    var i := 0;
    while i < |rows|
      invariant 0 <= i <= |rows|
      invariant vencidos == OverdueNames(rows[..i], today)
      invariant noVencidos == OnTimeNames(rows[..i], today)
    {
      assert rows[..i + 1][..i] == rows[..i];
      if rows[i].fechaFinalizacion < today {
        vencidos := vencidos + [rows[i].nombre];
      } else {
        noVencidos := noVencidos + [rows[i].nombre];
      }
      i := i + 1;
    }
    assert rows[..i] == rows;
  }

  /** The body of a `getVencimientoProyectos` answer; `data` is the dataset
      of the chart. */
  datatype Vencimiento = Vencimiento(
    data: seq<nat>, vencidos: nat, noVencidos: nat,
    vencidosNombres: seq<string>, noVencidosNombres: seq<string>)

  /** `getVencimientoProyectos`, with `proyectos` the table the query runs on
      and `today` the current day. */
  method GetVencimientoProyectos(header: Header, id: Option<int>, startDate: Option<int>, endDate: Option<int>,
                                 proyectos: seq<Proyecto>, today: int)
    returns (r: Reply<Vencimiento>)
    ensures Access(header, id).Fail? ==> r == Fail(Access(header, id).code, Access(header, id).msg)
    ensures Access(header, id).Done? ==>
      var rows := DueRows(proyectos, Access(header, id).body, DateFilterOf(startDate, endDate));
      if rows == [] then r == Fail(NOT_FOUND, NO_PROYECTOS_MSG)
      else
        var o, t := OverdueNames(rows, today), OnTimeNames(rows, today);
        r == Done(OK, Vencimiento([|o|, |t|], |o|, |t|, o, t))
  {
    var access := Access(header, id);
    if access.Fail? {
      return Fail(access.code, access.msg);
    }
    var dates := DateFilterOf(startDate, endDate);
    // The text is built as the handler builds it; the rows it selects are
    // modelled separately, by `DueRows` on the table.
    var q := DueQuery(access.body, dates);
    var rows := DueRows(proyectos, access.body, dates);
    if |rows| == 0 {
      return Fail(NOT_FOUND, NO_PROYECTOS_MSG);
    }
    var vencidos, noVencidos := ClassifyDue(rows, today);
    return Done(OK, Vencimiento([|vencidos|, |noVencidos|], |vencidos|, |noVencidos|, vencidos, noVencidos));
  }

  /** A successful answer counts every selected project once: the two
      counts add up to the number of rows. */
  lemma VencimientoCounts(header: Header, id: Option<int>, dates: DateFilter, proyectos: seq<Proyecto>, today: int)
    requires Access(header, id).Done?
    ensures var rows := DueRows(proyectos, Access(header, id).body, dates);
      |OverdueNames(rows, today)| + |OnTimeNames(rows, today)| == |rows| <= |proyectos|
  {
    DueCounts(DueRows(proyectos, Access(header, id).body, dates), today);
  }

  // ---------------------------------------------------------------------
  // getEstadoProyectos: counts by state
  // ---------------------------------------------------------------------

  datatype EstadoProyectos = EstadoProyectos(enProgreso: nat, finalizados: nat, suspendidos: nat)

  /** Rows whose `estado` is exactly `s`. */
  function CountEstado(rows: seq<EstadoRow>, s: string): nat
  {
    if rows == [] then 0
    else CountEstado(rows[..|rows| - 1], s) + (if rows[|rows| - 1].estado == s then 1 else 0)
  }

  predicate Counted(estado: string) {
    estado == "En progreso" || estado == "Finalizado" || estado == "Suspendido"
  }

  function Total(c: EstadoProyectos): nat {
    c.enProgreso + c.finalizados + c.suspendidos
  }

  function Tallied(rows: seq<EstadoRow>): EstadoProyectos {
    EstadoProyectos(CountEstado(rows, "En progreso"), CountEstado(rows, "Finalizado"), CountEstado(rows, "Suspendido"))
  }

  /** The counters never exceed the rows, and they add up to the row count
      exactly when every row has one of the three states. */
  lemma {:induction false} TalliedBound(rows: seq<EstadoRow>)
    ensures Total(Tallied(rows)) <= |rows|
    ensures Total(Tallied(rows)) == |rows| <==> forall r | r in rows :: Counted(r.estado)
  {
    if rows != [] {
      var init, last := rows[..|rows| - 1], rows[|rows| - 1];
      TalliedBound(init);
      TalliedLast(rows);
      assert last in rows;
      assert forall r | r in init :: r in rows;
      if Counted(last.estado) {
        assert forall r | r in rows :: r == last || r in init;
      }
    }
  }

  /** The last row adds one to the total exactly when its state is counted. */
  lemma TalliedLast(rows: seq<EstadoRow>)
    requires rows != []
    ensures Total(Tallied(rows)) ==
      Total(Tallied(rows[..|rows| - 1])) + if Counted(rows[|rows| - 1].estado) then 1 else 0
  {
    var e := rows[|rows| - 1].estado;
    assert "En progreso" != "Finalizado" && "En progreso" != "Suspendido" && "Finalizado" != "Suspendido";
  }

  /** The `forEach` of `getEstadoProyectos`: one increment per row, at most. */
  method CountEstados(rows: seq<EstadoRow>) returns (c: EstadoProyectos)
    ensures c == Tallied(rows)
  {
    c := EstadoProyectos(0, 0, 0);
    var i := 0;
    while i < |rows|
      invariant 0 <= i <= |rows|
      invariant c == Tallied(rows[..i])
    {
      assert rows[..i + 1][..i] == rows[..i];
      var estado := rows[i].estado;
      if estado == "En progreso" {
        c := c.(enProgreso := c.enProgreso + 1);
      } else if estado == "Finalizado" {
        c := c.(finalizados := c.finalizados + 1);
      } else if estado == "Suspendido" {
        c := c.(suspendidos := c.suspendidos + 1);
      }
      i := i + 1;
    }
    assert rows[..i] == rows;
  }

  datatype EstadoAnswer = EstadoAnswer(data: seq<nat>, estadoProyectos: EstadoProyectos)

  /** `getEstadoProyectos`. */
  method GetEstadoProyectos(header: Header, id: Option<int>, startDate: Option<int>, endDate: Option<int>,
                            proyectos: seq<Proyecto>)
    returns (r: Reply<EstadoAnswer>)
    ensures Access(header, id).Fail? ==> r == Fail(Access(header, id).code, Access(header, id).msg)
    ensures Access(header, id).Done? ==>
      var rows := EstadoRows(proyectos, Access(header, id).body, DateFilterOf(startDate, endDate));
      if rows == [] then r == Fail(NOT_FOUND, NO_PROYECTOS_MSG)
      else
        var c := Tallied(rows);
        r == Done(OK, EstadoAnswer([c.enProgreso, c.finalizados, c.suspendidos], c))
  {
    var access := Access(header, id);
    if access.Fail? {
      return Fail(access.code, access.msg);
    }
    var dates := DateFilterOf(startDate, endDate);
    // The text is built as the handler builds it; the rows it selects are
    // modelled separately, by `EstadoRows` on the table.
    var q := EstadoQuery(access.body, dates);
    var rows := EstadoRows(proyectos, access.body, dates);
    if |rows| == 0 {
      return Fail(NOT_FOUND, NO_PROYECTOS_MSG);
    }
    var c := CountEstados(rows);
    return Done(OK, EstadoAnswer([c.enProgreso, c.finalizados, c.suspendidos], c));
  }

  // ---------------------------------------------------------------------
  // getEstadoPrueba: test states per project name
  // ---------------------------------------------------------------------

  /** A row of the grouped query; `estado` is `None` for the NULL group of a
      project without plans, whose `cantidad` is 0. */
  datatype GroupRow = GroupRow(nombre: string, estado: Option<string>, cantidad: nat)

  /** The seven counters of one project name. */
  datatype Tally = Tally(
    aprobado: nat, rechazada: nat, pendiente: nat, bloqueado: nat,
    desconocido: nat, requiereMasPruebas: nat, noAplicable: nat)

  const ZERO := Tally(0, 0, 0, 0, 0, 0, 0)

  /** The states the `switch` knows, in the order of its cases. */
  const STATES: seq<string> := ["Aprobado", "Rechazada", "Pendiente", "Bloqueado", "Desconocido",
    "Requiere más pruebas", "No aplicable"]

  /** The counter of `t` for state `s`; 0 for a state the `switch` ignores. */
  function Counter(t: Tally, s: string): nat {
    if s == STATES[0] then t.aprobado
    else if s == STATES[1] then t.rechazada
    else if s == STATES[2] then t.pendiente
    else if s == STATES[3] then t.bloqueado
    else if s == STATES[4] then t.desconocido
    else if s == STATES[5] then t.requiereMasPruebas
    else if s == STATES[6] then t.noAplicable
    else 0
  }

  /** The `switch` on one row: add `n` to the counter of `estado`. */
  function Bump(t: Tally, estado: Option<string>, n: nat): (u: Tally)
    ensures forall s | s in STATES :: Counter(u, s) == Counter(t, s) + (if estado == Some(s) then n else 0)
    ensures (estado.None? || estado.value !in STATES) ==> u == t
  {
    if estado.None? then t
    else
      var s := estado.value;
      if s == STATES[0] then t.(aprobado := t.aprobado + n)
      else if s == STATES[1] then t.(rechazada := t.rechazada + n)
      else if s == STATES[2] then t.(pendiente := t.pendiente + n)
      else if s == STATES[3] then t.(bloqueado := t.bloqueado + n)
      else if s == STATES[4] then t.(desconocido := t.desconocido + n)
      else if s == STATES[5] then t.(requiereMasPruebas := t.requiereMasPruebas + n)
      else if s == STATES[6] then t.(noAplicable := t.noAplicable + n)
      else t
  }

  /** `proyectosAgrupados` after the `forEach` has seen `rows`. */
  function Grouped(rows: seq<GroupRow>): map<string, Tally>
  {
    if rows == [] then map[]
    else
      var m := Grouped(rows[..|rows| - 1]);
      var last := rows[|rows| - 1];
      m[last.nombre := Bump(if last.nombre in m then m[last.nombre] else ZERO, last.estado, last.cantidad)]
  }

  /** The `cantidad` of the rows for project name `nombre` in state `s`. */
  function SumFor(rows: seq<GroupRow>, nombre: string, s: string): nat
  {
    if rows == [] then 0
    else
      var last := rows[|rows| - 1];
      SumFor(rows[..|rows| - 1], nombre, s) + (if last.nombre == nombre && last.estado == Some(s) then last.cantidad else 0)
  }

  /** Every project name of the rows gets an entry and no other name does;
      rows of different projects with the same name share one entry. */
  lemma {:induction false} GroupedKeys(rows: seq<GroupRow>)
    ensures forall k :: k in Grouped(rows) <==> exists r | r in rows :: r.nombre == k
  {
    if rows != [] {
      GroupedKeys(rows[..|rows| - 1]);
      assert forall r | r in rows :: r == rows[|rows| - 1] || r in rows[..|rows| - 1];
      assert forall r | r in rows[..|rows| - 1] :: r in rows;
    }
  }

  /** Each counter of an entry is the sum of `cantidad` over the rows with
      that name and that state; the counters start at 0 and rows in other
      states add nothing. */
  lemma {:induction false} GroupedCounters(rows: seq<GroupRow>, k: string, s: string)
    requires k in Grouped(rows) && s in STATES
    ensures Counter(Grouped(rows)[k], s) == SumFor(rows, k, s)
  {
    var init, last := rows[..|rows| - 1], rows[|rows| - 1];
    var m := Grouped(init);
    if k == last.nombre {
      if k in m {
        GroupedCounters(init, k, s);
      } else {
        GroupedAbsentSum(init, k, s);
      }
    } else {
      GroupedCounters(init, k, s);
    }
  }

  lemma {:induction false} GroupedAbsentSum(rows: seq<GroupRow>, k: string, s: string)
    requires k !in Grouped(rows)
    ensures SumFor(rows, k, s) == 0
  {
    if rows != [] {
      GroupedAbsentSum(rows[..|rows| - 1], k, s);
    }
  }

  /** A row whose state the `switch` does not know leaves every counter as
      it was, and only opens a zero entry for a new name. */
  lemma GroupedUnknownState(rows: seq<GroupRow>, r: GroupRow)
    requires r.estado.None? || r.estado.value !in STATES
    ensures Grouped(rows + [r]) ==
      Grouped(rows)[r.nombre := if r.nombre in Grouped(rows) then Grouped(rows)[r.nombre] else ZERO]
  {
    assert (rows + [r])[..|rows|] == rows;
  }

  /** The `forEach` of `getEstadoPrueba`. */
  method GroupPruebas(rows: seq<GroupRow>) returns (agrupados: map<string, Tally>)
    ensures agrupados == Grouped(rows)
  {
    agrupados := map[];
    var i := 0;
    while i < |rows|
      invariant 0 <= i <= |rows|
      invariant agrupados == Grouped(rows[..i])
    {
      assert rows[..i + 1][..i] == rows[..i];
      var nombre := rows[i].nombre;
      if nombre !in agrupados {
        agrupados := agrupados[nombre := ZERO];
      }
      agrupados := agrupados[nombre := Bump(agrupados[nombre], rows[i].estado, rows[i].cantidad)];
      i := i + 1;
    }
    assert rows[..i] == rows;
  }

  /** `getEstadoPrueba`, with `rows` the rows its grouped query returns. */
  method GetEstadoPrueba(header: Header, id: Option<int>, startDate: Option<int>, endDate: Option<int>,
                         rows: seq<GroupRow>)
    returns (r: Reply<map<string, Tally>>)
    ensures Access(header, id).Fail? ==> r == Fail(Access(header, id).code, Access(header, id).msg)
    ensures Access(header, id).Done? ==>
      r == if rows == [] then Fail(NOT_FOUND, NO_PROYECTOS_MSG) else Done(OK, Grouped(rows))
  {
    var access := Access(header, id);
    if access.Fail? {
      return Fail(access.code, access.msg);
    }
    // The text is built as the handler builds it; the grouped rows it
    // returns are the parameter `rows`.
    var q := PruebaQuery(access.body, DateFilterOf(startDate, endDate));
    if |rows| == 0 {
      return Fail(NOT_FOUND, NO_PROYECTOS_MSG);
    }
    var agrupados := GroupPruebas(rows);
    return Done(OK, agrupados);
  }
}
