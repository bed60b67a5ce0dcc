/** The tables the controllers read and write, one record type per table, and
    the database that holds them. Column names follow the tables' own
    (`u_usuario` is `usuario`, `ParentMenuID` is `parentMenuId`). */
module Schema {
  import opened Common

  /** A moment as the local-time getters of `Date` report it: `fullYear` is
      `getFullYear()`, `month` is `getMonth()` (January is 0), `date` is
      `getDate()`, and so on. */
  datatype DateTime = DateTime(fullYear: nat, month: nat, date: nat, hours: nat, minutes: nat, seconds: nat)

  /** The ranges the getters keep to. */
  predicate InRange(d: DateTime) {
    d.month < 12 && 1 <= d.date <= 31 && d.hours < 24 && d.minutes < 60 && d.seconds < 60
  }

  /** `users`. */
  datatype User = User(
    id: int, nombre: string, apellido: string, usuario: string, password: string,
    estado: int, fechaCreacion: DateTime, rolId: int)

  /** `DIG_ROL_USUARIO`: the role a user name is linked to (key `ROL_USUARIO_ID`). */
  datatype RolUsuario = RolUsuario(id: int, usuario: string, rolId: int)

  /** `DIG_ROLES`. */
  datatype Rol = Rol(id: int, nombre: string, descripcion: string, fechaCreacion: DateTime, usuarioCrea: string)

  /** `DIG_PERMISOS`: role `rolId` may see menu entry `menuId`. */
  datatype Permiso = Permiso(rolId: int, menuId: int)

  /** `DIG_MENU`: `parentMenuId` is 0 for a top-level entry. */
  datatype Menu = Menu(
    menuId: int, parentMenuId: int, displayName: string, orderNumber: int,
    accion: int, visibleUsuario: int)

  /** `navigation`: a link owned by a role. */
  datatype NavLink = NavLink(id: int, linkName: string, url: string, roleId: int)

  /** `proyectos`: the two project dates are day numbers; `presupuesto` is
      in the smallest currency unit. */
  datatype Proyecto = Proyecto(
    id: int, nombre: string, descripcion: string, fechaInicio: int, fechaFinalizacion: int,
    estado: string, presupuesto: int, idResponsable: int,
    fechaCreacion: DateTime, fechaActualizacion: DateTime)

  /** `hitos`: a project milestone; its dates are stored as the client sent them. */
  datatype Hito = Hito(
    id: int, idProyecto: int, nombre: string, descripcion: string,
    fechaInicio: string, fechaFin: string, estado: string)

  /** `planPruebas`: a test plan of a project, for one of its milestones. */
  datatype PlanPrueba = PlanPrueba(
    id: int, hitoSeleccionado: int, resultadoEsperado: string, pruebaRealizada: string,
    estadoPrueba: string, criterioAceptacion: string, imagen: Option<string>,
    idProyecto: int, fechaCreacion: DateTime, fechaActualizacion: DateTime)

  /** The key column each handler addresses a row by. */
  function UserKey(u: User): int { u.id }
  function RolKey(x: Rol): int { x.id }
  function ProyectoKey(p: Proyecto): int { p.id }
  function HitoKey(h: Hito): int { h.id }
  function PlanKey(p: PlanPrueba): int { p.id }

  predicate UserIdsBelow(s: seq<User>, n: int) { forall u | u in s :: u.id < n }
  predicate LinkIdsBelow(s: seq<RolUsuario>, n: int) { forall l | l in s :: l.id < n }
  predicate RolIdsBelow(s: seq<Rol>, n: int) { forall r | r in s :: r.id < n }
  predicate ProyectoIdsBelow(s: seq<Proyecto>, n: int) { forall p | p in s :: p.id < n }
  predicate HitoIdsBelow(s: seq<Hito>, n: int) { forall h | h in s :: h.id < n }
  predicate PlanIdsBelow(s: seq<PlanPrueba>, n: int) { forall p | p in s :: p.id < n }

  /** The MySQL database: one sequence of rows per table, the AUTO_INCREMENT
      counter of each table with a generated key, and the number of pooled
      connections currently checked out. */
  class Database {
    var users: seq<User>
    var rolUsuario: seq<RolUsuario>
    var roles: seq<Rol>
    var permisos: seq<Permiso>
    var menu: seq<Menu>
    var navigation: seq<NavLink>
    var proyectos: seq<Proyecto>
    var hitos: seq<Hito>
    var planPruebas: seq<PlanPrueba>

    var nextUserId: int
    var nextLinkId: int
    var nextRolId: int
    var nextProyectoId: int
    var nextHitoId: int
    var nextPlanId: int

    var checkedOut: nat

    /** Every stored key is below its table's counter, so the next generated
        key is fresh. */
    ghost predicate Valid()
      reads this`users, this`rolUsuario, this`roles, this`proyectos, this`hitos, this`planPruebas
      reads this`nextUserId, this`nextLinkId, this`nextRolId, this`nextProyectoId, this`nextHitoId, this`nextPlanId
    {
      && UserIdsBelow(users, nextUserId)
      && LinkIdsBelow(rolUsuario, nextLinkId)
      && RolIdsBelow(roles, nextRolId)
      && ProyectoIdsBelow(proyectos, nextProyectoId)
      && HitoIdsBelow(hitos, nextHitoId)
      && PlanIdsBelow(planPruebas, nextPlanId)
    }

    constructor ()
      ensures Valid()
      ensures users == [] && rolUsuario == [] && roles == [] && permisos == [] && menu == []
      ensures navigation == [] && proyectos == [] && hitos == [] && planPruebas == []
      ensures checkedOut == 0
    {
      users, rolUsuario, roles, permisos, menu := [], [], [], [], [];
      navigation, proyectos, hitos, planPruebas := [], [], [], [];
      nextUserId, nextLinkId, nextRolId := 1, 1, 1;
      nextProyectoId, nextHitoId, nextPlanId := 1, 1, 1;
      checkedOut := 0;
    }
  }
}
