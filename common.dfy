/** Values shared by every controller: optional values, replies with their HTTP
    status, the identity carried by a token, and the text predicates that the
    SQL `LIKE` filters and the JavaScript truthiness tests reduce to. */
module Common {

  datatype Option<T> = None | Some(value: T)

  /** HTTP status codes the handlers answer with. */
  const OK: nat := 200
  const CREATED: nat := 201
  const BAD_REQUEST: nat := 400
  const UNAUTHORIZED: nat := 401
  const FORBIDDEN: nat := 403
  const NOT_FOUND: nat := 404
  const SERVER_ERROR: nat := 500

  /** The message of a 400 whose body is express-validator's list of errors. */
  const VALIDATION_ERRORS: string := "errors"

  /** A handler's answer: an error status with its message, or a success
      status with its body. */
  datatype Reply<T> = Fail(code: nat, msg: string) | Done(code: nat, body: T)

  /** The `user` object inside a token's payload. `rol` is absent from the
      tokens that registration signs. */
  datatype Claims = Claims(id: int, username: string, rol: Option<int>)

  /** What `jwt.verify` does with a token: it returns the payload or throws an
      error whose `name` is one of these. */
  datatype Verdict =
    | Verified(user: Claims)
    | JsonWebTokenError
    | TokenExpiredError
    | NotBeforeError

  /** The `x-auth-token` request header: absent, or present with the verdict
      the signature check gives on it. */
  datatype Header = NoToken | Token(verdict: Verdict)

  /** `!decoded.user.rol`: the role claim is missing or zero. */
  predicate RolMissing(c: Claims) {
    c.rol == None || c.rol == Some(0)
  }

  /** `sub` occurs in `s` starting at index `i`. */
  predicate OccursAt(sub: string, s: string, i: int) {
    0 <= i <= |s| - |sub| && s[i..i + |sub|] == sub
  }

  /** `sub` occurs in `s` as a contiguous block. */
  predicate IsSubstring(sub: string, s: string) {
    exists i | 0 <= i <= |s| - |sub| :: OccursAt(sub, s, i)
  }

  /** `if (search)`: a search term was given and is not the empty string. */
  predicate Searching(search: Option<string>) {
    search.Some? && search.value != ""
  }

  /** A row with text `name` survives the `LIKE '%search%'` filter, or no
      filter was added. */
  predicate PassesSearch(name: string, search: Option<string>) {
    !Searching(search) || IsSubstring(search.value, name)
  }

  /** The characters `String.prototype.trim` removes that the model knows of. */
  predicate IsSpace(c: char) {
    c == ' ' || c == '\t' || c == '\n' || c == '\r' || c == '\U{000B}' || c == '\U{000C}'
  }

  /** `s && s.trim()`: the string is non-empty and not only white space. */
  predicate HasText(s: string) {
    exists i | 0 <= i < |s| :: !IsSpace(s[i])
  }

  /** A step of a multi-statement operation at which the database raises an
      error, if any. Steps are numbered in the order the statements run. */
  datatype Fault = NoFault | FailAt(step: nat)

  predicate FailsAt(f: Fault, step: nat) {
    f == FailAt(step)
  }

  /** The decimal digit character for `d`. */
  function DigitChar(d: nat): (c: char)
    requires d < 10
    ensures '0' <= c <= '9'
  {
    ('0' as int + d) as char
  }

  /** `String(n)` for a non-negative integer: its decimal digits, without
      leading zeros. */
  function NatToString(n: nat): (s: string)
    ensures |s| >= 1
    decreases n
  {
    if n < 10 then [DigitChar(n)] else NatToString(n / 10) + [DigitChar(n % 10)]
  }

  /** `String(i)` for any integer. */
  function IntToString(i: int): string
  {
    if i < 0 then "-" + NatToString(-i) else NatToString(i)
  }

  // ---------------------------------------------------------------------
  // Tables addressed by an integer key column
  // ---------------------------------------------------------------------

  /** The first row whose key column `key` equals `id`: the row that a
      `SELECT ... WHERE key = ?` returns first. */
  function FindKey<T(==)>(rows: seq<T>, key: T -> int, id: int): (r: Option<T>)
    ensures r.None? <==> forall x | x in rows :: key(x) != id
    ensures r.Some? ==> r.value in rows && key(r.value) == id
  {
    if rows == [] then None
    else if key(rows[0]) == id then Some(rows[0])
    else
      assert forall x | x in rows :: x == rows[0] || x in rows[1..];
      FindKey(rows[1..], key, id)
  }

  /** `DELETE FROM ... WHERE key = ?`: the rows with another key, in table
      order. */
  function WithoutKey<T(==)>(rows: seq<T>, key: T -> int, id: int): (r: seq<T>)
    ensures forall x | x in r :: x in rows && key(x) != id
    ensures forall x | x in rows && key(x) != id :: x in r
    ensures |r| <= |rows|
  {
    if rows == [] then []
    else
      var init := WithoutKey(rows[..|rows| - 1], key, id);
      var last := rows[|rows| - 1];
      assert forall x | x in rows :: x == last || x in rows[..|rows| - 1];
      if key(last) != id then init + [last] else init
  }

  /** The rows a statement `... WHERE key = ?` matches: its `affectedRows`. */
  function CountKey<T(==)>(rows: seq<T>, key: T -> int, id: int): (n: nat)
    ensures n == 0 <==> forall x | x in rows :: key(x) != id
    ensures n <= |rows|
  {
    if rows == [] then 0
    else
      var last := rows[|rows| - 1];
      assert forall x | x in rows :: x == last || x in rows[..|rows| - 1];
      CountKey(rows[..|rows| - 1], key, id) + (if key(last) == id then 1 else 0)
  }

  /** The deleted rows are exactly the matched ones. */
  lemma {:induction false} WithoutKeyCount<T>(rows: seq<T>, key: T -> int, id: int)
    ensures |WithoutKey(rows, key, id)| + CountKey(rows, key, id) == |rows|
  {
    if rows != [] {
      WithoutKeyCount(rows[..|rows| - 1], key, id);
    }
  }

  /** Deleting an absent key deletes nothing. */
  lemma {:induction false} WithoutKeyAbsent<T>(rows: seq<T>, key: T -> int, id: int)
    requires forall x | x in rows :: key(x) != id
    ensures WithoutKey(rows, key, id) == rows
  {
    if rows != [] {
      var init := rows[..|rows| - 1];
      assert forall x | x in init :: x in rows;
      WithoutKeyAbsent(init, key, id);
      assert rows[|rows| - 1] in rows;
      assert rows == init + [rows[|rows| - 1]];
    }
  }

  /** Deleting twice is deleting once. */
  lemma WithoutKeyTwice<T>(rows: seq<T>, key: T -> int, id: int)
    ensures WithoutKey(WithoutKey(rows, key, id), key, id) == WithoutKey(rows, key, id)
  {
    WithoutKeyAbsent(WithoutKey(rows, key, id), key, id);
  }

  /** Deleting a key that is present removes at least one row, and the key
      is gone afterwards. */
  lemma WithoutKeyShrinks<T>(rows: seq<T>, key: T -> int, id: int)
    requires FindKey(rows, key, id).Some?
    ensures |WithoutKey(rows, key, id)| < |rows|
    ensures FindKey(WithoutKey(rows, key, id), key, id).None?
  {
    WithoutKeyCount(rows, key, id);
  }
}
