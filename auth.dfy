/** controllers/authController.js: user accounts. Registration, login, the
    status toggle, editing, deletion and the user list. Hashing is an input:
    `hashed` is what `bcrypt.hash` returns for the submitted password, and
    `matches(password, hash)` is what `bcrypt.compare` answers. */
module Auth {
  import opened Common
  import opened Schema
  import opened Sql
  import opened Sorting
  import Grafica

  const SERVER_MSG := "Error en el servidor"
  const NOT_FOUND_MSG := "Usuario no encontrado"
  const BAD_CREDENTIALS_MSG := "Credenciales inválidas"
  const INACTIVE_MSG := "El usuario se encuentra inactivo"
  const EXISTS_MSG := "El usuario ya existe"

  /** The value the `u_estado` column takes when an INSERT leaves it out.
      The table definition is not part of this model; an account is taken
      to start active. */
  const DEFAULT_ESTADO := 1

  /** The first `users` row with user name `name`, which is the row a
      `SELECT ... WHERE u_usuario = ?` lists first. */
  function FindByUsername(users: seq<User>, name: string): (r: Option<User>)
    ensures r.None? <==> forall u | u in users :: u.usuario != name
    ensures r.Some? ==> r.value in users && r.value.usuario == name
  {
    if users == [] then None
    else if users[0].usuario == name then Some(users[0])
    else
      assert forall u | u in users :: u == users[0] || u in users[1..];
      FindByUsername(users[1..], name)
  }

  /** The first `users` row with key `id`. */
  function FindById(users: seq<User>, id: int): Option<User> {
    FindKey(users, UserKey, id)
  }

  lemma FindByUsernameAppend(users: seq<User>, u: User)
    requires forall v | v in users :: v.usuario != u.usuario
    ensures FindByUsername(users + [u], u.usuario) == Some(u)
  {
    if users != [] {
      assert (users + [u])[1..] == users[1..] + [u];
      FindByUsernameAppend(users[1..], u);
    } else {
      assert users + [u] == [u];
    }
  }

  // ---------------------------------------------------------------------
  // register
  // ---------------------------------------------------------------------

  /** The request body of `register`; `rol` is `None` when it is not an
      integer. */
  datatype RegisterForm = RegisterForm(nombre: string, apellido: string, username: string, password: string, rol: Option<int>)

  /** The validation chain of the route: three non-empty names, a password
      of at least six characters, and an integer role. */
  predicate RegisterValid(f: RegisterForm) {
    f.nombre != "" && f.apellido != "" && f.username != "" && |f.password| >= 6 && f.rol.Some?
  }

  /** The `users` row the first INSERT adds. */
  function NewUser(f: RegisterForm, id: int, hashed: string, now: DateTime): User
    requires f.rol.Some?
  {
    User(id, f.nombre, f.apellido, f.username, hashed, DEFAULT_ESTADO, now, f.rol.value)
  }

  /** `register`. The statements are numbered 0 (the SELECT), 1 (the INSERT
      into `users`) and 2 (the INSERT into `DIG_ROL_USUARIO`). The two
      INSERTs run outside a transaction, so a failure of the second keeps
      the first. The reply body is the payload of the signed token. */
  method Register(db: Database, f: RegisterForm, hashed: string, now: DateTime, fault: Fault)
    returns (reply: Reply<Claims>)
    requires db.Valid()
    modifies db`users, db`nextUserId, db`rolUsuario, db`nextLinkId
    ensures db.Valid()
    ensures !RegisterValid(f) ==> reply == Fail(BAD_REQUEST, VALIDATION_ERRORS) && unchanged(db)
    ensures RegisterValid(f) && FailsAt(fault, 0) ==> reply == Fail(SERVER_ERROR, SERVER_MSG) && unchanged(db)
    ensures RegisterValid(f) && !FailsAt(fault, 0) && FindByUsername(old(db.users), f.username).Some? ==>
      reply == Fail(BAD_REQUEST, EXISTS_MSG) && unchanged(db)
    ensures RegisterValid(f) && !FailsAt(fault, 0) && FindByUsername(old(db.users), f.username).None? ==>
      var user := NewUser(f, old(db.nextUserId), hashed, now);
      var link := RolUsuario(old(db.nextLinkId), f.username, f.rol.value);
      if FailsAt(fault, 1) then
        reply == Fail(SERVER_ERROR, SERVER_MSG) && unchanged(db)
      else if FailsAt(fault, 2) then
        reply == Fail(SERVER_ERROR, SERVER_MSG) && db.users == old(db.users) + [user] &&
        db.nextUserId == old(db.nextUserId) + 1 &&
        db.rolUsuario == old(db.rolUsuario) && db.nextLinkId == old(db.nextLinkId)
      else
        reply == Done(OK, Claims(user.id, f.username, None)) &&
        db.users == old(db.users) + [user] && db.nextUserId == old(db.nextUserId) + 1 &&
        db.rolUsuario == old(db.rolUsuario) + [link] && db.nextLinkId == old(db.nextLinkId) + 1
  {
    if !RegisterValid(f) {
      return Fail(BAD_REQUEST, VALIDATION_ERRORS);
    }
    if FailsAt(fault, 0) {
      return Fail(SERVER_ERROR, SERVER_MSG);
    }
    if FindByUsername(db.users, f.username).Some? {
      return Fail(BAD_REQUEST, EXISTS_MSG);
    }
    if FailsAt(fault, 1) {
      return Fail(SERVER_ERROR, SERVER_MSG);
    }
    var insertId := db.nextUserId;
    db.users := db.users + [NewUser(f, insertId, hashed, now)];
    db.nextUserId := db.nextUserId + 1;
    if FailsAt(fault, 2) {
      return Fail(SERVER_ERROR, SERVER_MSG);
    }
    db.rolUsuario := db.rolUsuario + [RolUsuario(db.nextLinkId, f.username, f.rol.value)];
    db.nextLinkId := db.nextLinkId + 1;
    return Done(OK, Claims(insertId, f.username, None));
  }

  /** A token from registration carries no `rol`, so the dashboard
      handlers, which demand a role claim, answer it with 403 whatever user
      id the URL names. */
  lemma RegisterTokenRefused(id: int, username: string, urlId: Option<int>)
    ensures Grafica.Access(Token(Verified(Claims(id, username, None))), urlId) == Fail(FORBIDDEN, Grafica.BAD_ROL_MSG)
  {
  }

  // ---------------------------------------------------------------------
  // login
  // ---------------------------------------------------------------------

  /** `login`: `password` is `None` when the body has no such field. The
      checks run in this order: validation, a row for the user name, an
      active account, the password. The reply body is the token payload. */
  function Login(users: seq<User>, username: string, password: Option<string>,
                 matches: (string, string) -> bool): (r: Reply<Claims>)
    ensures username == "" || password.None? <==> r == Fail(BAD_REQUEST, VALIDATION_ERRORS)
    ensures r.Done? <==>
      username != "" && password.Some? && FindByUsername(users, username).Some? &&
      FindByUsername(users, username).value.estado == 1 &&
      matches(password.value, FindByUsername(users, username).value.password)
    ensures r.Done? ==> var u := FindByUsername(users, username).value;
      r == Done(OK, Claims(u.id, u.usuario, Some(u.rolId)))
    ensures r.Fail? && r.msg == INACTIVE_MSG ==>
      exists u | u in users :: u.usuario == username && u.estado != 1
    ensures username != "" && password.Some? && FindByUsername(users, username).None? ==>
      r == Fail(BAD_REQUEST, BAD_CREDENTIALS_MSG)
    ensures (username != "" && password.Some? && FindByUsername(users, username).Some? &&
             FindByUsername(users, username).value.estado != 1) ==>
      r == Fail(BAD_REQUEST, INACTIVE_MSG)
    ensures (username != "" && password.Some? && FindByUsername(users, username).Some? &&
             FindByUsername(users, username).value.estado == 1 &&
             !matches(password.value, FindByUsername(users, username).value.password)) ==>
      r == Fail(BAD_REQUEST, BAD_CREDENTIALS_MSG)
  {
    if username == "" || password.None? then Fail(BAD_REQUEST, VALIDATION_ERRORS)
    else
      match FindByUsername(users, username)
      case None => Fail(BAD_REQUEST, BAD_CREDENTIALS_MSG)
      case Some(u) =>
        if u.estado != 1 then Fail(BAD_REQUEST, INACTIVE_MSG)
        else if !matches(password.value, u.password) then Fail(BAD_REQUEST, BAD_CREDENTIALS_MSG)
        else Done(OK, Claims(u.id, u.usuario, Some(u.rolId)))
  }

  /** The inactive check comes before the password check: for an inactive
      account every password gets the inactive message, which a user name
      without an account never gets. The answer tells who has an account. */
  lemma LoginRevealsInactive(users: seq<User>, username: string, p1: string, p2: string,
                             matches: (string, string) -> bool)
    requires username != ""
    requires FindByUsername(users, username).Some? && FindByUsername(users, username).value.estado != 1
    ensures Login(users, username, Some(p1), matches) == Login(users, username, Some(p2), matches) ==
      Fail(BAD_REQUEST, INACTIVE_MSG)
    ensures forall others: seq<User> | FindByUsername(others, username).None? ::
      Login(others, username, Some(p1), matches) == Fail(BAD_REQUEST, BAD_CREDENTIALS_MSG)
  {
  }

  /** After a successful registration, logging in with the same password
      succeeds and yields the new id, the user name and the role, which the
      registration token lacked. */
  lemma RegisterThenLogin(users: seq<User>, f: RegisterForm, id: int, hashed: string, now: DateTime,
                          matches: (string, string) -> bool)
    requires RegisterValid(f)
    requires FindByUsername(users, f.username).None?
    requires matches(f.password, hashed)
    ensures Login(users + [NewUser(f, id, hashed, now)], f.username, Some(f.password), matches) ==
      Done(OK, Claims(id, f.username, f.rol))
  {
    FindByUsernameAppend(users, NewUser(f, id, hashed, now));
  }

  // ---------------------------------------------------------------------
  // deactivateUser
  // ---------------------------------------------------------------------

  /** `u_estado === 1 ? 0 : 1`. */
  function Toggle(estado: int): (e: int)
    ensures e == 0 || e == 1
    ensures e == 0 <==> estado == 1
  {
    if estado == 1 then 0 else 1
  }

  /** Toggling twice gives back a status of 0 or 1; any other status
      becomes 0. */
  lemma ToggleTwice(estado: int)
    ensures Toggle(Toggle(estado)) == if estado == 1 then 1 else 0
  {
  }

  /** `UPDATE users SET u_estado = estado, u_fechacreacion = NOW() WHERE id = ?`. */
  function SetEstado(users: seq<User>, id: int, estado: int, now: DateTime): (r: seq<User>)
    ensures |r| == |users|
    ensures forall k | 0 <= k < |users| ::
      r[k] == if users[k].id == id then users[k].(estado := estado, fechaCreacion := now) else users[k]
  {
    seq(|users|, k requires 0 <= k < |users| =>
      if users[k].id == id then users[k].(estado := estado, fechaCreacion := now) else users[k])
  }

  function ToggleMsg(estado: int): string {
    "Usuario " + (if estado == 1 then "activado" else "desactivado") + " correctamente"
  }

  /** `deactivateUser`: the status of the user's row flips between active
      and inactive, and its creation date is overwritten with the clock. */
  method DeactivateUser(db: Database, id: int, now: DateTime) returns (reply: Reply<string>)
    requires db.Valid()
    modifies db`users
    ensures db.Valid()
    ensures FindById(old(db.users), id).None? ==> reply == Fail(NOT_FOUND, NOT_FOUND_MSG) && db.users == old(db.users)
    ensures FindById(old(db.users), id).Some? ==>
      var e := Toggle(FindById(old(db.users), id).value.estado);
      reply == Done(OK, ToggleMsg(e)) && db.users == SetEstado(old(db.users), id, e, now)
  {
    var found := FindById(db.users, id);
    if found.None? {
      return Fail(NOT_FOUND, NOT_FOUND_MSG);
    }
    var newStatus := Toggle(found.value.estado);
    db.users := SetEstado(db.users, id, newStatus, now);
    return Done(OK, ToggleMsg(newStatus));
  }

  /** Two toggles of an account whose status is 0 or 1 restore the status. */
  lemma DeactivateTwice(users: seq<User>, id: int, now1: DateTime, now2: DateTime)
    requires FindById(users, id).Some? && FindById(users, id).value.estado in {0, 1}
    ensures var e1 := Toggle(FindById(users, id).value.estado);
      var after := SetEstado(users, id, e1, now1);
      FindById(after, id).Some? &&
      Toggle(FindById(after, id).value.estado) == FindById(users, id).value.estado
  {
    var e1 := Toggle(FindById(users, id).value.estado);
    var after := SetEstado(users, id, e1, now1);
    FindByIdMapped(users, id, e1, now1);
  }

  lemma {:induction false} FindByIdMapped(users: seq<User>, id: int, estado: int, now: DateTime)
    requires FindById(users, id).Some?
    ensures FindById(SetEstado(users, id, estado, now), id) ==
      Some(FindById(users, id).value.(estado := estado, fechaCreacion := now))
  {
    var r := SetEstado(users, id, estado, now);
    if users[0].id != id {
      assert r[1..] == SetEstado(users[1..], id, estado, now);
      FindByIdMapped(users[1..], id, estado, now);
    }
  }

  // ---------------------------------------------------------------------
  // editUsers
  // ---------------------------------------------------------------------

  /** The request body of `editUsers`; an absent `password` is "". */
  datatype EditForm = EditForm(nombre: string, apellido: string, username: string, password: string, estado: int, rol: int)

  /** The hash the UPDATE writes: the stored one unless a new password was
      sent. */
  function KeptPassword(current: string, password: string, hashed: string): (h: string)
    ensures password == "" ==> h == current
    ensures password != "" ==> h == hashed
  {
    if password != "" then hashed else current
  }

  /** The first UPDATE of `editUsers`. */
  function EditRows(users: seq<User>, id: int, f: EditForm, hash: string): (r: seq<User>)
    ensures |r| == |users|
    ensures forall k | 0 <= k < |users| :: r[k] == if users[k].id == id then
      User(id, f.nombre, f.apellido, f.username, hash, f.estado, users[k].fechaCreacion, f.rol) else users[k]
  {
    seq(|users|, k requires 0 <= k < |users| => if users[k].id == id then
      User(id, f.nombre, f.apellido, f.username, hash, f.estado, users[k].fechaCreacion, f.rol) else users[k])
  }

  /** The second UPDATE: the `DIG_ROL_USUARIO` row whose own key equals the
      user's id, whatever user name it holds. */
  function EditLinks(links: seq<RolUsuario>, id: int, username: string, rol: int): (r: seq<RolUsuario>)
    ensures |r| == |links|
    ensures forall k | 0 <= k < |links| ::
      r[k] == if links[k].id == id then RolUsuario(id, username, rol) else links[k]
  {
    seq(|links|, k requires 0 <= k < |links| => if links[k].id == id then RolUsuario(id, username, rol) else links[k])
  }

  /** `editUsers`; `hashed` is the hash of `f.password` when it is sent. */
  method EditUsers(db: Database, id: int, f: EditForm, hashed: string) returns (reply: Reply<string>)
    requires db.Valid()
    modifies db`users, db`rolUsuario
    ensures db.Valid()
    ensures FindById(old(db.users), id).None? ==>
      reply == Fail(NOT_FOUND, NOT_FOUND_MSG) && db.users == old(db.users) && db.rolUsuario == old(db.rolUsuario)
    ensures FindById(old(db.users), id).Some? ==>
      var hash := KeptPassword(FindById(old(db.users), id).value.password, f.password, hashed);
      reply == Done(OK, "Usuario actualizado correctamente") &&
      db.users == EditRows(old(db.users), id, f, hash) &&
      db.rolUsuario == EditLinks(old(db.rolUsuario), id, f.username, f.rol)
  {
    var found := FindById(db.users, id);
    if found.None? {
      return Fail(NOT_FOUND, NOT_FOUND_MSG);
    }
    var hash := found.value.password;
    if f.password != "" {
      hash := hashed;
    }
    db.users := EditRows(db.users, id, f, hash);
    db.rolUsuario := EditLinks(db.rolUsuario, id, f.username, f.rol);
    return Done(OK, "Usuario actualizado correctamente");
  }

  /** The link row that the edit changes is chosen by its own key, so with
      links keyed apart from user ids the user's own link keeps its old
      name and role while another user's link is overwritten. */
  lemma EditLinksByKey()
    ensures var links := [RolUsuario(1, "luis", 2), RolUsuario(5, "ana", 3)];
      EditLinks(links, 1, "ana", 4) == [RolUsuario(1, "ana", 4), RolUsuario(5, "ana", 3)]
  {
  }

  // ---------------------------------------------------------------------
  // DeleteUser
  // ---------------------------------------------------------------------

  /** `DELETE FROM users WHERE id = ?`. */
  function WithoutUser(users: seq<User>, id: int): seq<User> {
    WithoutKey(users, UserKey, id)
  }

  /** `DeleteUser`: the user's rows go, every other row stays, and the
      user's `DIG_ROL_USUARIO` row is left in place. */
  method DeleteUser(db: Database, id: int) returns (reply: Reply<string>)
    requires db.Valid()
    modifies db`users
    ensures db.Valid()
    ensures FindById(old(db.users), id).None? ==> reply == Fail(NOT_FOUND, NOT_FOUND_MSG) && db.users == old(db.users)
    ensures FindById(old(db.users), id).Some? ==>
      reply == Done(OK, "Usuario eliminado correctamente") && db.users == WithoutUser(old(db.users), id)
  {
    if FindById(db.users, id).None? {
      return Fail(NOT_FOUND, NOT_FOUND_MSG);
    }
    db.users := WithoutUser(db.users, id);
    return Done(OK, "Usuario eliminado correctamente");
  }

  /** Deleting removes at least the row that was found. */
  lemma DeleteShrinks(users: seq<User>, id: int)
    requires FindById(users, id).Some?
    ensures |WithoutUser(users, id)| < |users|
    ensures FindById(WithoutUser(users, id), id).None?
  {
    WithoutKeyShrinks(users, UserKey, id);
  }

  // ---------------------------------------------------------------------
  // getUsers
  // ---------------------------------------------------------------------

  /** A row of the user list: every column but the password and role. */
  datatype UserView = UserView(id: int, nombre: string, apellido: string, usuario: string, estado: int, fechaCreacion: DateTime)

  function View(u: User): UserView {
    UserView(u.id, u.nombre, u.apellido, u.usuario, u.estado, u.fechaCreacion)
  }

  /** `ORDER BY id DESC`. */
  function ByIdDesc(v: UserView): Key {
    (-v.id, 0, 0)
  }

  /** The rows the `LIKE` filter keeps, in table order. */
  function MatchingUsers(users: seq<User>, search: Option<string>): (r: seq<UserView>)
    ensures forall v :: v in r <==> exists u | u in users :: PassesSearch(u.usuario, search) && v == View(u)
  {
    if users == [] then []
    else
      assert forall u | u in users :: u == users[0] || u in users[1..];
      (if PassesSearch(users[0].usuario, search) then [View(users[0])] else []) + MatchingUsers(users[1..], search)
  }

  /** `getUsers`: the users whose name contains the search term, newest id
      first. Its query is `Sql.SearchQuery` over `users`, filtered on
      `u_usuario` and ordered by `id DESC`; the rows are modelled here
      directly. */
  function GetUsers(users: seq<User>, search: Option<string>): (r: seq<UserView>)
    ensures forall i, j | 0 <= i < j < |r| :: r[i].id >= r[j].id
    ensures SortedBy(r, ByIdDesc)
    ensures multiset(r) == multiset(MatchingUsers(users, search))
    ensures forall v :: v in r <==> exists u | u in users :: PassesSearch(u.usuario, search) && v == View(u)
  {
    var rows := SortBy(MatchingUsers(users, search), ByIdDesc);
    SortByMembers(MatchingUsers(users, search), ByIdDesc);
    assert forall i, j | 0 <= i < j < |rows| :: KeyLe(ByIdDesc(rows[i]), ByIdDesc(rows[j]));
    rows
  }

  /** Without a search term every user is listed. */
  lemma GetUsersAll(users: seq<User>, u: User)
    requires u in users
    ensures View(u) in GetUsers(users, None)
  {
  }

  /** When `id` is a key of the table (rows with the same id are the same
      row), the order of the list is fully determined: any ordering of the
      same rows by descending id is this one. */
  lemma GetUsersDeterminate(users: seq<User>, search: Option<string>, other: seq<UserView>)
    requires forall u, w | u in users && w in users && u.id == w.id :: u == w
    requires SortedBy(other, ByIdDesc) && multiset(other) == multiset(MatchingUsers(users, search))
    ensures other == GetUsers(users, search)
  {
    var r := GetUsers(users, search);
    GetUsersKeyed(users, search);
    SortedUnique(r, other, ByIdDesc);
  }

  lemma GetUsersKeyed(users: seq<User>, search: Option<string>)
    requires forall u, w | u in users && w in users && u.id == w.id :: u == w
    ensures KeysDistinct(GetUsers(users, search), ByIdDesc)
  {
    var r := GetUsers(users, search);
    forall i, j | 0 <= i < |r| && 0 <= j < |r| && ByIdDesc(r[i]) == ByIdDesc(r[j]) ensures r[i] == r[j] {
      assert r[i] in r && r[j] in r;
      var u :| u in users && PassesSearch(u.usuario, search) && r[i] == View(u);
      var w :| w in users && PassesSearch(w.usuario, search) && r[j] == View(w);
    }
  }
}
