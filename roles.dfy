/** controllers/rolesController.js: the `DIG_ROLES` table. Creating a role
    under a unique name, renaming it, deleting it when nothing refers to it,
    and listing the roles with their creation date rendered as text. */
module Roles {
  import opened Common
  import opened Schema
  import opened Sql
  import opened Sorting

  const NO_TOKEN_MSG := "Token de autenticación no proporcionado"
  const NOT_FOUND_MSG := "Rol no encontrado"
  const EXISTS_MSG := "El rol ya existe"
  const REGISTER_ERROR_MSG := "Error en el servidor al registrar el rol"
  const IN_USE_MSG := "El rol no puede ser eliminado, existen registros asociados al rol, por lo que solo ha sido desactivado"
  const MISSING_MSG := "El rol no existe"

  /** The first `DIG_ROLES` row with key `id`. */
  function FindRol(roles: seq<Rol>, id: int): Option<Rol> {
    FindKey(roles, RolKey, id)
  }

  predicate NameTaken(roles: seq<Rol>, name: string) {
    exists x | x in roles :: x.nombre == name
  }

  /** The validation chain of both write routes: a name and a description. */
  predicate FormValid(rolName: string, descripcion: string) {
    rolName != "" && descripcion != ""
  }

  // ---------------------------------------------------------------------
  // register
  // ---------------------------------------------------------------------

  /** `register`: the new row records the token's user name as its creator. */
  method Register(db: Database, rolName: string, descripcion: string, header: Header, now: DateTime)
    returns (reply: Reply<string>)
    requires db.Valid()
    modifies db`roles, db`nextRolId
    ensures db.Valid()
    ensures !FormValid(rolName, descripcion) ==> reply == Fail(BAD_REQUEST, VALIDATION_ERRORS) && unchanged(db)
    ensures FormValid(rolName, descripcion) && header.NoToken? ==>
      reply == Fail(UNAUTHORIZED, NO_TOKEN_MSG) && unchanged(db)
    ensures FormValid(rolName, descripcion) && header.Token? && !header.verdict.Verified? ==>
      reply == Fail(SERVER_ERROR, REGISTER_ERROR_MSG) && unchanged(db)
    ensures FormValid(rolName, descripcion) && header.Token? && header.verdict.Verified? ==>
      if NameTaken(old(db.roles), rolName) then
        reply == Fail(BAD_REQUEST, EXISTS_MSG) && unchanged(db)
      else
        reply == Done(CREATED, "Rol registrado correctamente") &&
        db.roles == old(db.roles) + [Rol(old(db.nextRolId), rolName, descripcion, now, header.verdict.user.username)] &&
        db.nextRolId == old(db.nextRolId) + 1
  {
    if !FormValid(rolName, descripcion) {
      return Fail(BAD_REQUEST, VALIDATION_ERRORS);
    }
    if header.NoToken? {
      return Fail(UNAUTHORIZED, NO_TOKEN_MSG);
    }
    if !header.verdict.Verified? {
      return Fail(SERVER_ERROR, REGISTER_ERROR_MSG);
    }
    var username := header.verdict.user.username;
    if NameTaken(db.roles, rolName) {
      return Fail(BAD_REQUEST, EXISTS_MSG);
    }
    db.roles := db.roles + [Rol(db.nextRolId, rolName, descripcion, now, username)];
    db.nextRolId := db.nextRolId + 1;
    return Done(CREATED, "Rol registrado correctamente");
  }

  /** Names stay unique: if no two roles share a name before a creation,
      none do after it. */
  lemma RegisterKeepsNamesUnique(roles: seq<Rol>, x: Rol)
    requires forall i, j | 0 <= i < j < |roles| :: roles[i].nombre != roles[j].nombre
    requires !NameTaken(roles, x.nombre)
    ensures var after := roles + [x];
      forall i, j | 0 <= i < j < |after| :: after[i].nombre != after[j].nombre
  {
    var after := roles + [x];
    forall i, j | 0 <= i < j < |after| ensures after[i].nombre != after[j].nombre {
      if j == |roles| {
        assert after[i] in roles;
      } else {
        assert after[i] == roles[i] && after[j] == roles[j];
      }
    }
  }

  // ---------------------------------------------------------------------
  // editRol
  // ---------------------------------------------------------------------

  /** `UPDATE DIG_ROLES SET NOMBRE = ?, DESCRIPCION = ? WHERE ROL_ID = ?`. */
  function Renamed(roles: seq<Rol>, id: int, rolName: string, descripcion: string): (r: seq<Rol>)
    ensures |r| == |roles|
    ensures forall k | 0 <= k < |roles| ::
      r[k] == if roles[k].id == id then roles[k].(nombre := rolName, descripcion := descripcion) else roles[k]
  {
    seq(|roles|, k requires 0 <= k < |roles| =>
      if roles[k].id == id then roles[k].(nombre := rolName, descripcion := descripcion) else roles[k])
  }

  /** `editRol`. The new name is not checked against the other roles. */
  method EditRol(db: Database, id: int, rolName: string, descripcion: string) returns (reply: Reply<string>)
    requires db.Valid()
    modifies db`roles
    ensures db.Valid()
    ensures !FormValid(rolName, descripcion) ==> reply == Fail(BAD_REQUEST, VALIDATION_ERRORS) && db.roles == old(db.roles)
    ensures FormValid(rolName, descripcion) && FindRol(old(db.roles), id).None? ==>
      reply == Fail(NOT_FOUND, NOT_FOUND_MSG) && db.roles == old(db.roles)
    ensures FormValid(rolName, descripcion) && FindRol(old(db.roles), id).Some? ==>
      reply == Done(OK, "Rol actualizado correctamente") && db.roles == Renamed(old(db.roles), id, rolName, descripcion)
  {
    if !FormValid(rolName, descripcion) {
      return Fail(BAD_REQUEST, VALIDATION_ERRORS);
    }
    if FindRol(db.roles, id).None? {
      return Fail(NOT_FOUND, NOT_FOUND_MSG);
    }
    db.roles := Renamed(db.roles, id, rolName, descripcion);
    return Done(OK, "Rol actualizado correctamente");
  }

  /** An edit changes only the name and description of the edited role:
      keys, dates and creators stay, and other roles stay whole. */
  lemma RenamedFrame(roles: seq<Rol>, id: int, rolName: string, descripcion: string, k: int)
    requires 0 <= k < |roles|
    ensures var x := Renamed(roles, id, rolName, descripcion)[k];
      x.id == roles[k].id && x.fechaCreacion == roles[k].fechaCreacion && x.usuarioCrea == roles[k].usuarioCrea
    ensures roles[k].id != id ==> Renamed(roles, id, rolName, descripcion)[k] == roles[k]
    ensures roles[k].id == id ==> Renamed(roles, id, rolName, descripcion)[k].nombre == rolName
  {
  }

  /** Because the name is not checked, an edit can give two roles the same
      name, which `register` refuses to do. */
  lemma EditRolAllowsDuplicate()
    ensures var d := DateTime(2024, 0, 1, 0, 0, 0);
      var roles := [Rol(1, "admin", "a", d, "root"), Rol(2, "ventas", "v", d, "root")];
      var after := Renamed(roles, 2, "admin", "v");
      after[0].nombre == after[1].nombre && NameTaken(roles, "admin")
  {
    var d := DateTime(2024, 0, 1, 0, 0, 0);
    var roles := [Rol(1, "admin", "a", d, "root"), Rol(2, "ventas", "v", d, "root")];
    assert roles[0] in roles;
  }

  // ---------------------------------------------------------------------
  // deleteRol
  // ---------------------------------------------------------------------

  /** `SELECT COUNT(*) FROM users WHERE u_rolId = ?`. */
  function UserCount(users: seq<User>, id: int): (n: nat)
    ensures n > 0 <==> exists u | u in users :: u.rolId == id
  {
    if users == [] then 0
    else
      assert forall u | u in users :: u == users[0] || u in users[1..];
      (if users[0].rolId == id then 1 else 0) + UserCount(users[1..], id)
  }

  /** `SELECT COUNT(*) FROM navigation WHERE role_id = ?`. */
  function NavCount(links: seq<NavLink>, id: int): (n: nat)
    ensures n > 0 <==> exists l | l in links :: l.roleId == id
  {
    if links == [] then 0
    else
      assert forall l | l in links :: l == links[0] || l in links[1..];
      (if links[0].roleId == id then 1 else 0) + NavCount(links[1..], id)
  }

  /** `DELETE FROM dig_roles WHERE ROL_ID = ?`. */
  function WithoutRol(roles: seq<Rol>, id: int): seq<Rol> {
    WithoutKey(roles, RolKey, id)
  }

  /** `deleteRol`. A role that users or navigation links refer to is
      refused with 404 and stays exactly as it was: despite the message,
      nothing is deactivated. */
  method DeleteRol(db: Database, id: int) returns (reply: Reply<string>)
    requires db.Valid()
    modifies db`roles
    ensures db.Valid()
    ensures UserCount(db.users, id) > 0 || NavCount(db.navigation, id) > 0 ==>
      reply == Fail(NOT_FOUND, IN_USE_MSG) && db.roles == old(db.roles)
    ensures UserCount(db.users, id) == 0 && NavCount(db.navigation, id) == 0 ==>
      if FindRol(old(db.roles), id).None? then
        reply == Fail(NOT_FOUND, MISSING_MSG) && db.roles == old(db.roles)
      else
        reply == Done(OK, "Rol eliminado correctamente") && db.roles == WithoutRol(old(db.roles), id)
  {
    var userCount := UserCount(db.users, id);
    var navCount := NavCount(db.navigation, id);
    if userCount > 0 || navCount > 0 {
      return Fail(NOT_FOUND, IN_USE_MSG);
    }
    if FindRol(db.roles, id).None? {
      return Fail(NOT_FOUND, MISSING_MSG);
    }
    db.roles := WithoutRol(db.roles, id);
    return Done(OK, "Rol eliminado correctamente");
  }

  /** A successful delete leaves no role under that key, keeps every other
      role, and so can never leave a user pointing at a role that was
      removed by it. */
  lemma DeleteRolEffect(users: seq<User>, roles: seq<Rol>, id: int)
    requires UserCount(users, id) == 0
    ensures FindRol(WithoutRol(roles, id), id).None?
    ensures forall x | x in roles && x.id != id :: x in WithoutRol(roles, id)
    ensures forall u | u in users :: u.rolId != id
  {
  }

  // ---------------------------------------------------------------------
  // getRoles: rows with FECHA_CREACION as "dd/mm/yyyy HH:MM:SS"
  // ---------------------------------------------------------------------

  /** `String(n).padStart(2, '0')`: at least two digits; a longer number is
      not cut. */
  function Pad2(n: nat): (s: string)
    ensures |s| >= 2
  {
    if n < 10 then ['0', DigitChar(n)] else NatToString(n)
  }

  /** The date as the `map` of `getRoles` renders it, from the local-time
      getters; the month is `getMonth() + 1`. */
  function FormatFecha(d: DateTime): string {
    Pad2(d.date) + "/" + Pad2(d.month + 1) + "/" + NatToString(d.fullYear) + " " +
    Pad2(d.hours) + ":" + Pad2(d.minutes) + ":" + Pad2(d.seconds)
  }

  function DigitValue(c: char): int {
    c as int - '0' as int
  }

  predicate IsDigit(c: char) {
    '0' <= c <= '9'
  }

  /** The value of a run of decimal digits. */
  function DigitsValue(s: string): int
  {
    if s == [] then 0 else DigitsValue(s[..|s| - 1]) * 10 + DigitValue(s[|s| - 1])
  }

  lemma TwoDigits(n: nat)
    requires n < 100
    ensures Pad2(n) == [DigitChar(n / 10), DigitChar(n % 10)]
  {
    if n >= 10 {
      assert NatToString(n / 10) == [DigitChar(n / 10)];
    }
  }

  lemma FourDigits(n: nat)
    requires 1000 <= n < 10000
    ensures NatToString(n) == [DigitChar(n / 1000), DigitChar(n / 100 % 10), DigitChar(n / 10 % 10), DigitChar(n % 10)]
  {
    assert NatToString(n / 1000) == [DigitChar(n / 1000)];
    assert n / 10 / 10 == n / 100 && n / 100 / 10 == n / 1000;
    assert NatToString(n / 100) == [DigitChar(n / 1000), DigitChar(n / 100 % 10)];
    assert NatToString(n / 10) == [DigitChar(n / 1000), DigitChar(n / 100 % 10), DigitChar(n / 10 % 10)];
  }

  /** The rendered date of a four-digit year, in the getters' ranges. */
  predicate Renderable(d: DateTime) {
    InRange(d) && 1000 <= d.fullYear < 10000
  }

  /** The components read back from a rendered date. */
  function ParseFecha(s: string): (int, int, int, int, int, int)
    requires |s| == 19
  {
    (DigitsValue(s[0..2]), DigitsValue(s[3..5]), DigitsValue(s[6..10]),
     DigitsValue(s[11..13]), DigitsValue(s[14..16]), DigitsValue(s[17..19]))
  }

  lemma DigitsValue2(a: nat, b: nat)
    requires a < 10 && b < 10
    ensures DigitsValue([DigitChar(a), DigitChar(b)]) == 10 * a + b
  {
    var s := [DigitChar(a), DigitChar(b)];
    assert s[..1] == [DigitChar(a)];
    assert s[..1][..0] == [];
    assert DigitsValue(s[..1]) == a;
    assert DigitsValue(s) == DigitsValue(s[..1]) * 10 + DigitValue(s[1]);
  }

  /** Reading back the decimal rendering of a number gives the number. */
  lemma {:induction false} NatToStringValue(n: nat)
    ensures DigitsValue(NatToString(n)) == n
    decreases n
  {
    if n < 10 {
      assert [DigitChar(n)][..0] == [];
    } else {
      var s := NatToString(n / 10);
      NatToStringValue(n / 10);
      assert (s + [DigitChar(n % 10)])[..|s|] == s;
    }
  }


  /** Two padded digits read back as the number. */
  lemma Pad2Value(n: nat)
    requires n < 100
    ensures |Pad2(n)| == 2 && DigitsValue(Pad2(n)) == n
  {
    TwoDigits(n);
    DigitsValue2(n / 10, n % 10);
  }

  /** A four-digit year reads back as the year. */
  lemma YearValue(n: nat)
    requires 1000 <= n < 10000
    ensures |NatToString(n)| == 4 && DigitsValue(NatToString(n)) == n
  {
    FourDigits(n);
    NatToStringValue(n);
  }

  lemma SliceLeft(x: string, p: string, i: int, j: int)
    requires 0 <= i <= j <= |x|
    ensures (x + p)[i..j] == x[i..j]
  {
  }

  lemma SliceRight(x: string, p: string)
    ensures (x + p)[|x|..] == p
  {
  }

  /** The rendered date as the concatenation of its eleven parts; `s9` is
      everything before the seconds, `s7` everything before the minutes,
      and so on. */
  lemma FormatFechaParts(d: DateTime)
    requires Renderable(d)
    ensures |FormatFecha(d)| == 19
    ensures FormatFecha(d)[17..19] == Pad2(d.seconds)
    ensures FormatFecha(d)[..16] == Pad2(d.date) + "/" + Pad2(d.month + 1) + "/" + NatToString(d.fullYear) + " " +
      Pad2(d.hours) + ":" + Pad2(d.minutes)
    ensures FormatFecha(d)[16] == ':'
  {
    Pad2Value(d.date);
    Pad2Value(d.month + 1);
    Pad2Value(d.hours);
    Pad2Value(d.minutes);
    Pad2Value(d.seconds);
    YearValue(d.fullYear);
    var s8 := Pad2(d.date) + "/" + Pad2(d.month + 1) + "/" + NatToString(d.fullYear) + " " +
      Pad2(d.hours) + ":" + Pad2(d.minutes);
    assert |s8| == 16;
    SliceRight(s8 + ":", Pad2(d.seconds));
    assert FormatFecha(d) == (s8 + ":") + Pad2(d.seconds);
  }

  /** Everything before the minutes: day, month, year and hours. */
  lemma FormatFechaHead(d: DateTime)
    requires Renderable(d)
    ensures var s := FormatFecha(d);
      |s| == 19 && s[14..16] == Pad2(d.minutes) && s[13] == ':' &&
      s[..13] == Pad2(d.date) + "/" + Pad2(d.month + 1) + "/" + NatToString(d.fullYear) + " " + Pad2(d.hours)
  {
    FormatFechaParts(d);
    Pad2Value(d.date);
    Pad2Value(d.month + 1);
    Pad2Value(d.hours);
    YearValue(d.fullYear);
    var s := FormatFecha(d);
    var s6 := Pad2(d.date) + "/" + Pad2(d.month + 1) + "/" + NatToString(d.fullYear) + " " + Pad2(d.hours);
    assert |s6| == 13;
    var s8 := (s6 + ":") + Pad2(d.minutes);
    assert s[..16] == s8;
    SliceRight(s6 + ":", Pad2(d.minutes));
    assert s[14..16] == s8[14..16];
    assert s[..13] == s8[..13];
  }

  /** Day, month and year. */
  lemma FormatFechaDate(d: DateTime)
    requires Renderable(d)
    ensures var s := FormatFecha(d);
      |s| == 19 && s[11..13] == Pad2(d.hours) && s[10] == ' ' && s[6..10] == NatToString(d.fullYear) &&
      s[5] == '/' && s[3..5] == Pad2(d.month + 1) && s[2] == '/' && s[0..2] == Pad2(d.date)
  {
    FormatFechaHead(d);
    Pad2Value(d.date);
    Pad2Value(d.month + 1);
    YearValue(d.fullYear);
    var s := FormatFecha(d);
    var s2 := Pad2(d.date) + "/" + Pad2(d.month + 1);
    var s4 := s2 + "/" + NatToString(d.fullYear);
    var s6 := s4 + " " + Pad2(d.hours);
    assert s[..13] == s6;
    assert |s2| == 5 && |s4| == 10;
    assert s[11..13] == s6[11..13] == Pad2(d.hours);
    assert s[6..10] == s6[6..10] == s4[6..10] == NatToString(d.fullYear);
    assert s[3..5] == s6[3..5] == s2[3..5] == Pad2(d.month + 1);
    assert s[0..2] == s6[0..2] == s2[0..2] == Pad2(d.date);
  }

  /** The layout is fixed: two-digit day and month, four-digit year, a
      space, and two-digit hours, minutes and seconds, so the text is 19
      characters with the separators in place and every component can be
      read back, the month as `getMonth() + 1`. */
  lemma FormatFechaRoundTrip(d: DateTime)
    requires Renderable(d)
    ensures |FormatFecha(d)| == 19
    ensures var s := FormatFecha(d); s[2] == '/' && s[5] == '/' && s[10] == ' ' && s[13] == ':' && s[16] == ':'
    ensures ParseFecha(FormatFecha(d)) == (d.date, d.month + 1, d.fullYear, d.hours, d.minutes, d.seconds)
  {
    FormatFechaParts(d);
    FormatFechaHead(d);
    FormatFechaDate(d);
    Pad2Value(d.date);
    Pad2Value(d.month + 1);
    Pad2Value(d.hours);
    Pad2Value(d.minutes);
    Pad2Value(d.seconds);
    YearValue(d.fullYear);
  }

  /** A row of the role list, with the date as text. */
  datatype RolView = RolView(id: int, nombre: string, descripcion: string, fechaCreacion: string, usuarioCrea: string)

  /** `{ ...role, FECHA_CREACION: formattedFecha }`. */
  function Formatted(x: Rol): RolView {
    RolView(x.id, x.nombre, x.descripcion, FormatFecha(x.fechaCreacion), x.usuarioCrea)
  }

  function RolByIdDesc(x: Rol): Key {
    (-x.id, 0, 0)
  }

  /** The roles the `LIKE` filter keeps, in table order. */
  function MatchingRoles(roles: seq<Rol>, search: Option<string>): (r: seq<Rol>)
    ensures forall x :: x in r <==> x in roles && PassesSearch(x.nombre, search)
  {
    if roles == [] then []
    else (if PassesSearch(roles[0].nombre, search) then [roles[0]] else []) + MatchingRoles(roles[1..], search)
  }

  function FormatAll(rows: seq<Rol>): (r: seq<RolView>)
    ensures |r| == |rows| && forall k | 0 <= k < |rows| :: r[k] == Formatted(rows[k])
  {
    seq(|rows|, k requires 0 <= k < |rows| => Formatted(rows[k]))
  }

  /** Formatting keeps the order of the keys and the rows themselves. */
  lemma FormatAllSorted(sorted: seq<Rol>)
    requires SortedBy(sorted, RolByIdDesc)
    ensures forall i, j | 0 <= i < j < |sorted| :: FormatAll(sorted)[i].id >= FormatAll(sorted)[j].id
  {
    forall i, j | 0 <= i < j < |sorted| ensures FormatAll(sorted)[i].id >= FormatAll(sorted)[j].id {
      assert KeyLe(RolByIdDesc(sorted[i]), RolByIdDesc(sorted[j]));
    }
  }

  lemma FormatAllMembers(sorted: seq<Rol>, rows: seq<Rol>)
    requires forall x :: x in sorted <==> x in rows
    ensures forall v | v in FormatAll(sorted) :: exists x | x in rows :: v == Formatted(x)
    ensures forall x | x in rows :: Formatted(x) in FormatAll(sorted)
  {
    var r := FormatAll(sorted);
    forall v | v in r ensures exists x | x in rows :: v == Formatted(x) {
      var k :| 0 <= k < |r| && r[k] == v;
      assert sorted[k] in sorted;
      assert sorted[k] in rows && v == Formatted(sorted[k]);
    }
    forall x | x in rows ensures Formatted(x) in r {
      var k :| 0 <= k < |sorted| && sorted[k] == x;
      assert r[k] == Formatted(x);
    }
  }

  /** `getRoles`: the matching roles, highest key first, each with its date
      rendered and every other column as stored. Its query is
      `Sql.SearchQuery` over `dig_roles`, filtered on `NOMBRE` and ordered
      by `ROL_ID DESC`; the rows are modelled here directly. */
  function GetRoles(roles: seq<Rol>, search: Option<string>): (r: seq<RolView>)
    ensures |r| == |MatchingRoles(roles, search)|
    ensures forall i, j | 0 <= i < j < |r| :: r[i].id >= r[j].id
    ensures forall v | v in r :: exists x | x in MatchingRoles(roles, search) :: v == Formatted(x)
    ensures forall x | x in MatchingRoles(roles, search) :: Formatted(x) in r
  {
    var rows := MatchingRoles(roles, search);
    var sorted := SortBy(rows, RolByIdDesc);
    SortByMembers(rows, RolByIdDesc);
    FormatAllSorted(sorted);
    FormatAllMembers(sorted, rows);
    FormatAll(sorted)
  }

  // ---------------------------------------------------------------------
  // getRolEdit
  // ---------------------------------------------------------------------

  datatype RolSummary = RolSummary(id: int, nombre: string, descripcion: string)

  /** `getRolEdit`: the first row with that key, or 404. */
  function GetRolEdit(roles: seq<Rol>, id: int): (r: Reply<RolSummary>)
    ensures r.Fail? <==> forall x | x in roles :: x.id != id
    ensures r.Fail? ==> r == Fail(NOT_FOUND, NOT_FOUND_MSG)
    ensures r.Done? ==> r.code == OK && r.body.id == id
    ensures r.Done? ==> exists x | x in roles :: x.id == id && r.body == RolSummary(x.id, x.nombre, x.descripcion)
  {
    match FindRol(roles, id)
    case None => Fail(NOT_FOUND, NOT_FOUND_MSG)
    case Some(x) => Done(OK, RolSummary(x.id, x.nombre, x.descripcion))
  }
}
