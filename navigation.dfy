/** controllers/navigationController.js: saving the menu permissions of a
    role in one transaction, the menu a user may see, and the menu catalog. */
module Navigation {
  import opened Common
  import opened Schema
  import opened Sorting

  // ---------------------------------------------------------------------
  // Permissions of a role: DELETE then one INSERT per grant
  // ---------------------------------------------------------------------

  /** One element of the request's `permissions` array. */
  datatype Grant = Grant(menuId: int)

  /** The `DIG_PERMISOS` rows of role `r`, in table order. */
  function RowsOf(p: seq<Permiso>, r: int): (q: seq<Permiso>)
    ensures forall x :: x in q <==> x in p && x.rolId == r
  {
    if p == [] then [] else (if p[0].rolId == r then [p[0]] else []) + RowsOf(p[1..], r)
  }

  /** The rows `DELETE FROM dig_permisos WHERE ROL_ID = r` leaves. */
  function WithoutRole(p: seq<Permiso>, r: int): (q: seq<Permiso>)
    ensures forall x :: x in q <==> x in p && x.rolId != r
  {
    if p == [] then [] else (if p[0].rolId != r then [p[0]] else []) + WithoutRole(p[1..], r)
  }

  /** The rows the insertion loop adds: one per grant, in list order. */
  function GrantRows(r: int, grants: seq<Grant>): (q: seq<Permiso>)
    ensures |q| == |grants|
    ensures forall k | 0 <= k < |q| :: q[k] == Permiso(r, grants[k].menuId)
  {
    seq(|grants|, k requires 0 <= k < |grants| => Permiso(r, grants[k].menuId))
  }

  /** The permission table after a committed save of `grants` for role `r`. */
  function Replaced(p: seq<Permiso>, r: int, grants: seq<Grant>): seq<Permiso>
  {
    WithoutRole(p, r) + GrantRows(r, grants)
  }

  lemma {:induction false} RowsOfConcat(a: seq<Permiso>, b: seq<Permiso>, r: int)
    ensures RowsOf(a + b, r) == RowsOf(a, r) + RowsOf(b, r)
  {
    if a == [] {
      assert a + b == b;
    } else {
      assert (a + b)[1..] == a[1..] + b;
      RowsOfConcat(a[1..], b, r);
    }
  }

  lemma {:induction false} WithoutRoleConcat(a: seq<Permiso>, b: seq<Permiso>, r: int)
    ensures WithoutRole(a + b, r) == WithoutRole(a, r) + WithoutRole(b, r)
  {
    if a == [] {
      assert a + b == b;
    } else {
      assert (a + b)[1..] == a[1..] + b;
      WithoutRoleConcat(a[1..], b, r);
    }
  }

  /** Selecting role `s` after deleting role `r`. */
  lemma {:induction false} RowsOfWithoutRole(p: seq<Permiso>, r: int, s: int)
    ensures RowsOf(WithoutRole(p, r), s) == if r == s then [] else RowsOf(p, s)
  {
    if p != [] {
      RowsOfWithoutRole(p[1..], r, s);
      var head := if p[0].rolId != r then [p[0]] else [];
      RowsOfConcat(head, WithoutRole(p[1..], r), s);
      assert RowsOf(head, s) == (if r == s then [] else (if p[0].rolId == s then [p[0]] else [])) by {
        if head != [] { assert head[1..] == []; }
      }
    }
  }

  lemma {:induction false} WithoutRoleTwice(p: seq<Permiso>, r: int)
    ensures WithoutRole(WithoutRole(p, r), r) == WithoutRole(p, r)
  {
    if p != [] {
      WithoutRoleTwice(p[1..], r);
      var head := if p[0].rolId != r then [p[0]] else [];
      WithoutRoleConcat(head, WithoutRole(p[1..], r), r);
      assert WithoutRole(head, r) == head by {
        if head != [] { assert head[1..] == []; }
      }
    }
  }

  lemma {:induction false} GrantRowsPrefix(r: int, grants: seq<Grant>)
    requires grants != []
    ensures GrantRows(r, grants) == [Permiso(r, grants[0].menuId)] + GrantRows(r, grants[1..])
  {
  }

  /** The inserted rows all belong to role `r`. */
  lemma {:induction false} GrantRowsOf(r: int, grants: seq<Grant>, s: int)
    ensures RowsOf(GrantRows(r, grants), s) == if r == s then GrantRows(r, grants) else []
    ensures WithoutRole(GrantRows(r, grants), r) == []
    decreases |grants|
  {
    if grants != [] {
      GrantRowsPrefix(r, grants);
      GrantRowsOf(r, grants[1..], s);
      RowsOfConcat([Permiso(r, grants[0].menuId)], GrantRows(r, grants[1..]), s);
      WithoutRoleConcat([Permiso(r, grants[0].menuId)], GrantRows(r, grants[1..]), r);
      assert [Permiso(r, grants[0].menuId)][1..] == [];
    }
  }

  /** After a committed save the role's rows are exactly one row per element
      of the list, in list order, duplicates included. */
  lemma ReplacedRoleRows(p: seq<Permiso>, r: int, grants: seq<Grant>)
    ensures RowsOf(Replaced(p, r, grants), r) == GrantRows(r, grants)
  {
    RowsOfConcat(WithoutRole(p, r), GrantRows(r, grants), r);
    RowsOfWithoutRole(p, r, r);
    GrantRowsOf(r, grants, r);
  }

  /** A save for role `r` leaves the rows of every other role as they were. */
  lemma ReplacedOtherRoles(p: seq<Permiso>, r: int, grants: seq<Grant>, s: int)
    requires s != r
    ensures RowsOf(Replaced(p, r, grants), s) == RowsOf(p, s)
  {
    RowsOfConcat(WithoutRole(p, r), GrantRows(r, grants), s);
    RowsOfWithoutRole(p, r, s);
    GrantRowsOf(r, grants, s);
  }

  /** A second save for the same role overwrites the first: the DELETE
      removes everything the first save inserted. */
  lemma ReplacedOverwrites(p: seq<Permiso>, r: int, first: seq<Grant>, second: seq<Grant>)
    ensures Replaced(Replaced(p, r, first), r, second) == Replaced(p, r, second)
  {
    WithoutRoleConcat(WithoutRole(p, r), GrantRows(r, first), r);
    WithoutRoleTwice(p, r);
    GrantRowsOf(r, first, r);
    assert WithoutRole(p, r) + [] == WithoutRole(p, r);
  }

  /** Saving the same list twice leaves the table of a single save. */
  lemma ReplacedIdempotent(p: seq<Permiso>, r: int, grants: seq<Grant>)
    ensures Replaced(Replaced(p, r, grants), r, grants) == Replaced(p, r, grants)
  {
    ReplacedOverwrites(p, r, grants, grants);
  }

  predicate RoleExists(roles: seq<Rol>, r: int) {
    exists x | x in roles :: x.id == r
  }

  /** `!roleId || !Array.isArray(permissions)`. */
  predicate Malformed(roleId: Option<int>, permissions: Option<seq<Grant>>) {
    roleId == None || roleId == Some(0) || permissions == None
  }

  /** A fault at one of the statements from `first` to `last`. */
  predicate FaultBetween(f: Fault, first: nat, last: nat) {
    f.FailAt? && first <= f.step <= last
  }

  const MALFORMED_MSG := "roleId y permissions son requeridos y deben estar en el formato correcto."
  const SAVE_ERROR_MSG := "Error al registrar permisos."
  const SAVED_MSG := "Permisos registrados correctamente."

  function MissingRoleMsg(r: int): string {
    "El rol con ID " + IntToString(r) + " no existe."
  }

  /** `registerPermissions`. The statements on the connection are numbered
      0 (BEGIN), 1 (SELECT of the role), 2 (DELETE), 3 + i (INSERT of grant
      i) and 3 + |grants| (COMMIT); `fault` names the one the database
      rejects, if any. A missing role or a fault rolls the transaction back,
      and the connection goes back to the pool on every path that took one. */
  /** The insertion loop of `registerPermissions`: one INSERT per grant, in
      list order; the INSERT of grant `i` is step `3 + i`, and the loop stops
      at the first failing one. */
  method InsertGrants(db: Database, r: int, grants: seq<Grant>, fault: Fault) returns (failed: bool)
    modifies db`permisos
    ensures failed <==> FaultBetween(fault, 3, 2 + |grants|)
    ensures !failed ==> db.permisos == old(db.permisos) + GrantRows(r, grants)
  {
    ghost var start := db.permisos;
    var i := 0;
    while i < |grants|
      invariant 0 <= i <= |grants|
      invariant db.permisos == start + GrantRows(r, grants[..i])
      invariant !FaultBetween(fault, 3, 2 + i)
    {
      if FailsAt(fault, 3 + i) {
        return true;
      }
      assert GrantRows(r, grants[..i + 1]) == GrantRows(r, grants[..i]) + [Permiso(r, grants[i].menuId)];
      db.permisos := db.permisos + [Permiso(r, grants[i].menuId)];
      i := i + 1;
    }
    assert grants[..i] == grants;
    return false;
  }

  method RegisterPermissions(db: Database, roleId: Option<int>, permissions: Option<seq<Grant>>, fault: Fault)
    returns (reply: Reply<string>)
    requires db.Valid()
    modifies db`permisos, db`checkedOut
    ensures db.Valid()
    ensures db.checkedOut == old(db.checkedOut)
    ensures Malformed(roleId, permissions) ==>
      reply == Fail(BAD_REQUEST, MALFORMED_MSG) && db.permisos == old(db.permisos)
    ensures !Malformed(roleId, permissions) ==>
      var r, grants := roleId.value, permissions.value;
      if FaultBetween(fault, 0, 1) then
        reply == Fail(SERVER_ERROR, SAVE_ERROR_MSG) && db.permisos == old(db.permisos)
      else if !RoleExists(db.roles, r) then
        reply == Fail(BAD_REQUEST, MissingRoleMsg(r)) && db.permisos == old(db.permisos)
      else if FaultBetween(fault, 2, 3 + |grants|) then
        reply == Fail(SERVER_ERROR, SAVE_ERROR_MSG) && db.permisos == old(db.permisos)
      else
        reply == Done(CREATED, SAVED_MSG) && db.permisos == Replaced(old(db.permisos), r, grants)
  {
    if Malformed(roleId, permissions) {
      return Fail(BAD_REQUEST, MALFORMED_MSG);
    }
    var r, grants := roleId.value, permissions.value;

    db.checkedOut := db.checkedOut + 1;
    var saved := db.permisos;
    if FailsAt(fault, 0) || FailsAt(fault, 1) {
      db.permisos := saved;
      db.checkedOut := db.checkedOut - 1;
      return Fail(SERVER_ERROR, SAVE_ERROR_MSG);
    }
    if !RoleExists(db.roles, r) {
      db.permisos := saved;
      db.checkedOut := db.checkedOut - 1;
      return Fail(BAD_REQUEST, MissingRoleMsg(r));
    }

    if FailsAt(fault, 2) {
      db.permisos := saved;
      db.checkedOut := db.checkedOut - 1;
      return Fail(SERVER_ERROR, SAVE_ERROR_MSG);
    }
    db.permisos := WithoutRole(db.permisos, r);
    var failed := InsertGrants(db, r, grants, fault);
    if failed {
      db.permisos := saved;
      db.checkedOut := db.checkedOut - 1;
      return Fail(SERVER_ERROR, SAVE_ERROR_MSG);
    }

    if FailsAt(fault, 3 + |grants|) {
      db.permisos := saved;
      db.checkedOut := db.checkedOut - 1;
      return Fail(SERVER_ERROR, SAVE_ERROR_MSG);
    }
    db.checkedOut := db.checkedOut - 1;
    return Done(CREATED, SAVED_MSG);
  }

  // ---------------------------------------------------------------------
  // menus: the entries a user may see
  // ---------------------------------------------------------------------

  /** A row of the `menus` result: the `DIG_MENU` columns and `Ordenar`. */
  datatype MenuRow = MenuRow(entry: Menu, ordenar: int)

  /** The `Ordenar` column: a top-level entry's own id, otherwise its parent's. */
  function Ordenar(m: Menu): int {
    if m.parentMenuId == 0 then m.menuId else m.parentMenuId
  }

  /** `ORDER BY Ordenar ASC, T0.OrderNumber ASC, T0.MenuID ASC`. */
  function MenuKey(x: MenuRow): Key {
    (x.ordenar, x.entry.orderNumber, x.entry.menuId)
  }

  /** `DIG_ROL_USUARIO` rows linking `username` to role `rolId`. */
  function LinkMatches(ru: seq<RolUsuario>, rolId: int, username: string): nat
  {
    if ru == [] then 0
    else (if ru[0].rolId == rolId && ru[0].usuario == username then 1 else 0) + LinkMatches(ru[1..], rolId, username)
  }

  /** Join rows through `DIG_ROLES` for a permission of role `rolId`. */
  function RoleMatches(roles: seq<Rol>, ru: seq<RolUsuario>, rolId: int, username: string): nat
  {
    if roles == [] then 0
    else
      (if roles[0].id == rolId then LinkMatches(ru, roles[0].id, username) else 0)
      + RoleMatches(roles[1..], ru, rolId, username)
  }

  /** Join rows through `DIG_PERMISOS` for menu entry `menuId`. */
  function GrantMatches(p: seq<Permiso>, roles: seq<Rol>, ru: seq<RolUsuario>, menuId: int, username: string): nat
  {
    if p == [] then 0
    else
      (if p[0].menuId == menuId then RoleMatches(roles, ru, p[0].rolId, username) else 0)
      + GrantMatches(p[1..], roles, ru, menuId, username)
  }

  function Repeat<T>(x: T, n: nat): (r: seq<T>)
    ensures |r| == n && forall k | 0 <= k < n :: r[k] == x
  {
    seq(n, _ => x)
  }

  /** The inner join of the four tables for `username`, restricted to
      `VisibleUsuario = 1`: every entry appears once per permission, role
      and link row that connects it to the user. */
  function Joined(menu: seq<Menu>, p: seq<Permiso>, roles: seq<Rol>, ru: seq<RolUsuario>, username: string): seq<MenuRow>
  {
    if menu == [] then []
    else
      (if menu[0].visibleUsuario == 1
       then Repeat(MenuRow(menu[0], Ordenar(menu[0])), GrantMatches(p, roles, ru, menu[0].menuId, username))
       else [])
      + Joined(menu[1..], p, roles, ru, username)
  }

  /** Entry `menuId` is connected to `username` through a permission, an
      existing role and a link row. */
  ghost predicate Reachable(p: seq<Permiso>, roles: seq<Rol>, ru: seq<RolUsuario>, menuId: int, username: string) {
    exists b, x, d | b in p && x in roles && d in ru ::
      b.menuId == menuId && x.id == b.rolId && d.rolId == x.id && d.usuario == username
  }

  lemma {:induction false} LinkMatchesPositive(ru: seq<RolUsuario>, rolId: int, username: string)
    ensures LinkMatches(ru, rolId, username) > 0 <==> exists d | d in ru :: d.rolId == rolId && d.usuario == username
  {
    if ru != [] {
      LinkMatchesPositive(ru[1..], rolId, username);
      assert forall d | d in ru :: d == ru[0] || d in ru[1..];
    }
  }

  lemma {:induction false} RoleMatchesPositive(roles: seq<Rol>, ru: seq<RolUsuario>, rolId: int, username: string)
    ensures RoleMatches(roles, ru, rolId, username) > 0 <==>
      exists x, d | x in roles && d in ru :: x.id == rolId && d.rolId == x.id && d.usuario == username
  {
    if roles != [] {
      RoleMatchesPositive(roles[1..], ru, rolId, username);
      LinkMatchesPositive(ru, roles[0].id, username);
      assert forall x | x in roles :: x == roles[0] || x in roles[1..];
    }
  }

  lemma {:induction false} GrantMatchesPositive(p: seq<Permiso>, roles: seq<Rol>, ru: seq<RolUsuario>, menuId: int, username: string)
    ensures GrantMatches(p, roles, ru, menuId, username) > 0 <==> Reachable(p, roles, ru, menuId, username)
  {
    if p != [] {
      GrantMatchesPositive(p[1..], roles, ru, menuId, username);
      RoleMatchesPositive(roles, ru, p[0].rolId, username);
      assert forall b | b in p :: b == p[0] || b in p[1..];
      if Reachable(p, roles, ru, menuId, username) {
        var b, x, d :| b in p && x in roles && d in ru &&
          b.menuId == menuId && x.id == b.rolId && d.rolId == x.id && d.usuario == username;
        if b != p[0] {
          assert Reachable(p[1..], roles, ru, menuId, username);
        }
      }
      if Reachable(p[1..], roles, ru, menuId, username) {
        var b, x, d :| b in p[1..] && x in roles && d in ru &&
          b.menuId == menuId && x.id == b.rolId && d.rolId == x.id && d.usuario == username;
        assert b in p;
      }
    }
  }

  /** Membership in the join: a row of a visible entry of the table, with
      its `Ordenar`, whenever the entry is reachable by the user. */
  lemma {:induction false} JoinedMembers(menu: seq<Menu>, p: seq<Permiso>, roles: seq<Rol>, ru: seq<RolUsuario>, username: string, x: MenuRow)
    ensures x in Joined(menu, p, roles, ru, username) <==>
      x.entry in menu && x.entry.visibleUsuario == 1 && x.ordenar == Ordenar(x.entry) &&
      Reachable(p, roles, ru, x.entry.menuId, username)
  {
    if menu != [] {
      JoinedMembers(menu[1..], p, roles, ru, username, x);
      GrantMatchesPositive(p, roles, ru, menu[0].menuId, username);
      var n := GrantMatches(p, roles, ru, menu[0].menuId, username);
      var head := if menu[0].visibleUsuario == 1 then Repeat(MenuRow(menu[0], Ordenar(menu[0])), n) else [];
      assert Joined(menu, p, roles, ru, username) == head + Joined(menu[1..], p, roles, ru, username);
      assert x in head <==> menu[0].visibleUsuario == 1 && n > 0 && x == MenuRow(menu[0], Ordenar(menu[0])) by {
        if menu[0].visibleUsuario == 1 && n > 0 && x == MenuRow(menu[0], Ordenar(menu[0])) {
          assert head[0] == x;
        }
      }
      assert forall m | m in menu :: m == menu[0] || m in menu[1..];
    }
  }

  const NO_MENUS_MSG := "No menus found for this user"

  /** `menus`: the join, ordered by `MenuKey`, or 404 when it is empty. */
  function Menus(menu: seq<Menu>, p: seq<Permiso>, roles: seq<Rol>, ru: seq<RolUsuario>, username: string): (r: Reply<seq<MenuRow>>)
    ensures r.Fail? ==> r == Fail(NOT_FOUND, NO_MENUS_MSG)
    ensures r.Done? ==> r.code == OK && r.body != [] && SortedBy(r.body, MenuKey)
    ensures r.Done? ==> multiset(r.body) == multiset(Joined(menu, p, roles, ru, username))
    ensures forall x :: (r.Done? && x in r.body) <==>
      x.entry in menu && x.entry.visibleUsuario == 1 && x.ordenar == Ordenar(x.entry) &&
      Reachable(p, roles, ru, x.entry.menuId, username)
  {
    var joined := Joined(menu, p, roles, ru, username);
    var rows := SortBy(joined, MenuKey);
    SortByMembers(joined, MenuKey);
    forall x ensures x in rows <==> x in joined {
    }
    forall x ensures x in joined <==>
      x.entry in menu && x.entry.visibleUsuario == 1 && x.ordenar == Ordenar(x.entry) &&
      Reachable(p, roles, ru, x.entry.menuId, username)
    {
      JoinedMembers(menu, p, roles, ru, username, x);
    }
    if rows == [] then Fail(NOT_FOUND, NO_MENUS_MSG) else Done(OK, rows)
  }

  /** The user sees nothing, and gets 404, exactly when no visible entry is
      reachable. */
  lemma MenusNotFound(menu: seq<Menu>, p: seq<Permiso>, roles: seq<Rol>, ru: seq<RolUsuario>, username: string)
    ensures Menus(menu, p, roles, ru, username).Fail? <==>
      forall m | m in menu && m.visibleUsuario == 1 :: !Reachable(p, roles, ru, m.menuId, username)
  {
    var r := Menus(menu, p, roles, ru, username);
    if r.Done? {
      var x := r.body[0];
      assert x in r.body;
    } else {
      forall m | m in menu && m.visibleUsuario == 1 ensures !Reachable(p, roles, ru, m.menuId, username) {
        var x := MenuRow(m, Ordenar(m));
        assert x.entry == m && x.ordenar == Ordenar(x.entry);
      }
    }
  }

  /** Rows with the same `Ordenar` are contiguous. */
  lemma MenusGroupsContiguous(menu: seq<Menu>, p: seq<Permiso>, roles: seq<Rol>, ru: seq<RolUsuario>, username: string, i: int, j: int, k: int)
    requires Menus(menu, p, roles, ru, username).Done?
    requires 0 <= i < j < k < |Menus(menu, p, roles, ru, username).body|
    requires Menus(menu, p, roles, ru, username).body[i].ordenar == Menus(menu, p, roles, ru, username).body[k].ordenar
    ensures Menus(menu, p, roles, ru, username).body[j].ordenar == Menus(menu, p, roles, ru, username).body[i].ordenar
  {
    var rows := Menus(menu, p, roles, ru, username).body;
    assert KeyLe(MenuKey(rows[i]), MenuKey(rows[j]));
    assert KeyLe(MenuKey(rows[j]), MenuKey(rows[k]));
  }

  /** The parent does not necessarily lead its group: a child whose
      `OrderNumber` is below its parent's is listed before the parent. */
  lemma MenusChildBeforeParent(menu: seq<Menu>, p: seq<Permiso>, roles: seq<Rol>, ru: seq<RolUsuario>, username: string, i: int, j: int)
    requires Menus(menu, p, roles, ru, username).Done?
    requires 0 <= i < |Menus(menu, p, roles, ru, username).body| && 0 <= j < |Menus(menu, p, roles, ru, username).body|
    requires Menus(menu, p, roles, ru, username).body[i].entry.parentMenuId == Menus(menu, p, roles, ru, username).body[j].entry.menuId != 0
    requires Menus(menu, p, roles, ru, username).body[j].entry.parentMenuId == 0
    requires Menus(menu, p, roles, ru, username).body[i].entry.orderNumber < Menus(menu, p, roles, ru, username).body[j].entry.orderNumber
    ensures i < j
  {
    var rows := Menus(menu, p, roles, ru, username).body;
    assert rows[i] in rows && rows[j] in rows;
    StrictlySmallerFirst(rows, MenuKey, i, j);
  }

  /** A concrete case: parent 1 with `OrderNumber` 5 and its child 2 with
      `OrderNumber` 1, both granted to the only role of "ana": the child
      comes first. */
  lemma MenusParentNotFirst()
    ensures
      var parent := Menu(1, 0, "Proyectos", 5, 0, 1);
      var child := Menu(2, 1, "Nuevo", 1, 0, 1);
      var r := Menus([parent, child], [Permiso(7, 1), Permiso(7, 2)],
        [Rol(7, "admin", "", DateTime(2024, 0, 1, 0, 0, 0), "root")], [RolUsuario(1, "ana", 7)], "ana");
      r.Done? && r.body == [MenuRow(child, 1), MenuRow(parent, 1)]
  {
    var parent := Menu(1, 0, "Proyectos", 5, 0, 1);
    var child := Menu(2, 1, "Nuevo", 1, 0, 1);
    var p := [Permiso(7, 1), Permiso(7, 2)];
    var roles := [Rol(7, "admin", "", DateTime(2024, 0, 1, 0, 0, 0), "root")];
    var ru := [RolUsuario(1, "ana", 7)];
    assert LinkMatches(ru, 7, "ana") == 1;
    assert RoleMatches(roles, ru, 7, "ana") == 1;
    assert GrantMatches(p, roles, ru, 1, "ana") == 1;
    assert GrantMatches(p, roles, ru, 2, "ana") == 1;
    assert Repeat(MenuRow(child, 1), 1) == [MenuRow(child, 1)];
    assert Repeat(MenuRow(parent, 1), 1) == [MenuRow(parent, 1)];
    assert [parent, child][1..] == [child];
    assert Joined([child], p, roles, ru, "ana") == [MenuRow(child, 1)];
    var joined := Joined([parent, child], p, roles, ru, "ana");
    assert joined == [MenuRow(parent, 1), MenuRow(child, 1)];
    assert SortBy(joined, MenuKey) == [MenuRow(child, 1), MenuRow(parent, 1)];
  }

  // ---------------------------------------------------------------------
  // getMenus: the catalog with its three tags
  // ---------------------------------------------------------------------

  /** The `TipoMenu` column: 'Menu', 'Submenu' or 'Sub-submenu'. */
  datatype TipoMenu = MenuTipo | Submenu | SubSubmenu

  function TipoLabel(t: TipoMenu): string {
    match t
    case MenuTipo => "Menu"
    case Submenu => "Submenu"
    case SubSubmenu => "Sub-submenu"
  }

  /** A row of the catalog view. */
  datatype CatalogRow = CatalogRow(tipo: TipoMenu, menuId: int, parentMenuId: int, displayName: string, accion: int)

  /** The `CASE` that tags an entry. */
  function Tipo(m: Menu): TipoMenu {
    if m.parentMenuId == 0 then MenuTipo
    else if m.accion == 1 || m.accion == 2 then SubSubmenu
    else Submenu
  }

  function Tagged(m: Menu): CatalogRow {
    CatalogRow(Tipo(m), m.menuId, m.parentMenuId, m.displayName, m.accion)
  }

  /** The group of a row: a top-level entry's own id, otherwise its parent's. */
  function Group(x: CatalogRow): int {
    if x.parentMenuId == 0 then x.menuId else x.parentMenuId
  }

  /** The three `ORDER BY` expressions of the catalog query. */
  function CatalogKey(x: CatalogRow): Key {
    (Group(x), if x.parentMenuId == 0 then 0 else x.menuId, x.accion)
  }

  function Catalog(menu: seq<Menu>): (c: seq<CatalogRow>)
    ensures |c| == |menu| && forall k | 0 <= k < |menu| :: c[k] == Tagged(menu[k])
  {
    seq(|menu|, k requires 0 <= k < |menu| => Tagged(menu[k]))
  }

  const NO_CATALOG_MSG := "No se encontraron los menus"

  /** `getMenus`: every `dig_menu` row, tagged and ordered, or 404 for an
      empty table. */
  function GetMenus(menu: seq<Menu>): (r: Reply<seq<CatalogRow>>)
    ensures r.Fail? <==> menu == []
    ensures r.Fail? ==> r == Fail(NOT_FOUND, NO_CATALOG_MSG)
    ensures r.Done? ==> r.code == OK && SortedBy(r.body, CatalogKey) && multiset(r.body) == multiset(Catalog(menu))
    ensures forall x :: (r.Done? && x in r.body) <==> exists m | m in menu :: x == Tagged(m)
  {
    var rows := SortBy(Catalog(menu), CatalogKey);
    SortByMembers(Catalog(menu), CatalogKey);
    forall x ensures x in Catalog(menu) <==> exists m | m in menu :: x == Tagged(m) {
      if x in Catalog(menu) {
        var k :| 0 <= k < |menu| && Catalog(menu)[k] == x;
        assert menu[k] in menu;
      }
      if exists m | m in menu :: x == Tagged(m) {
        var m :| m in menu && x == Tagged(m);
        var k :| 0 <= k < |menu| && menu[k] == m;
        assert Catalog(menu)[k] == x;
      }
    }
    if rows == [] then Fail(NOT_FOUND, NO_CATALOG_MSG) else Done(OK, rows)
  }

  /** With positive ids, the top-level row of a group comes before every
      child of that group. */
  lemma GetMenusTopLeads(menu: seq<Menu>, i: int, j: int)
    requires forall m | m in menu :: m.menuId > 0
    requires GetMenus(menu).Done?
    requires 0 <= i < |GetMenus(menu).body| && 0 <= j < |GetMenus(menu).body|
    requires GetMenus(menu).body[i].parentMenuId == 0 && GetMenus(menu).body[j].parentMenuId != 0
    requires Group(GetMenus(menu).body[i]) == Group(GetMenus(menu).body[j])
    ensures i < j
  {
    var rows := GetMenus(menu).body;
    assert rows[j] in rows;
    var m :| m in menu && rows[j] == Tagged(m);
    StrictlySmallerFirst(rows, CatalogKey, i, j);
  }
}
