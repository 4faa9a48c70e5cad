/** The profile handlers a signed-in user calls on their own account (getMe,
    updateMe, updateMyPassword, deleteMe) and the admin handlers (getUser,
    deleteUser, getAllUsers). All of them run after protectRoute, which has
    set `req.user`; the admin ones also after `restrictTo("admin")`.

    As in the auth controller, each handler is a method proved equal to a
    pure function of the tables and its inputs, and the lemmas state what
    those functions mean. */
module UserController {
  import opened Basics
  import opened Schema
  import opened Http
  import opened Runtime
  import opened ApiFeatures
  import AuthController

  const UserNotFound := "User not found."
  const NameRequired := "At least one of the two fields is required."
  const SameName := "New user name must be different from current user name."
  const AllFieldsRequired := "All fields are required."
  const PasswordsDiffer := "Passwords do not match."
  const SamePassword := "New password must be different from current password."
  const BothFieldsRequired := "Both fields are required."
  const BadCredentials := "Invalid email or password."
  const AccountDeleted := "Account deleted successfully. You can recover within 30 days."
  const NoSuchUser := "This user doesn't exist."
  const UserDeleted := "User deleted successfully."
  const NoMatchingRecords := "No matching records."

  /** `user.rows[0].name` when the SELECT found nothing. */
  const NoRowName := RuntimeError("TypeError", "Cannot read properties of undefined (reading 'name')")
  /** `const { password } = user.rows[0]` when the SELECT found nothing. */
  const NoRowPassword := RuntimeError("TypeError", "Cannot destructure property 'password' of 'user.rows[0]' as it is undefined.")
  /** updateMyPassword queries through a `client` it never declared. */
  const NoClient := RuntimeError("ReferenceError", "client is not defined")

  // ================================================================ getMe

  /** `GET /me`: the caller's whole row. `new AppError("User not found.")`
      passes no status code. */
  function GetMeSpec(t: Tables, me: Identity): Outcome
  {
    if me.id !in t.users then Outcome(t, Reject(UserNotFound, 0), InTxn)
    else Outcome(t, Respond(200, UserRow(me.id, t.users[me.id]), KeepCookie), Released)
  }

  method GetMe(db: Database, req: Request) returns (r: HandlerResult)
    requires db.Idle() && req.user.Some?
    modifies db, req
    ensures db.Valid() && req.user == old(req.user)
    ensures var o := GetMeSpec(old(db.tables), old(req.user).value);
      && r == o.result && db.tables == o.tables
      && Left(o.reach, old(db.tables), old(db.nextLease), old(req.pgClient), req.pgClient, db.leased, db.txn)
  {
    var id := req.user.value.id;
    var client := db.Connect();
    req.pgClient := Some(client);
    db.Begin(client);

    if id !in db.tables.users {
      return Reject(UserNotFound, 0);
    }
    var me := db.tables.users[id];
    db.Commit(client);
    var released := db.Release(client);
    r := Respond(200, UserRow(id, me), KeepCookie);
  }

  /** getMe answers with the caller's own row and nothing else, and that row
      is `SELECT *`: it carries the password hash, the one-time code and the
      reset-token hash. A missing row is reported with status 500, since the
      error has no status code. */
  lemma GetMeReturnsWholeRow(t: Tables, me: Identity)
    ensures var o := GetMeSpec(t, me);
      && o.tables == t
      && (me.id in t.users ==>
            && o.result.Respond? && o.result.payload.rowId == me.id
            && o.result.payload.row.passwordHash == t.users[me.id].passwordHash
            && o.result.payload.row.otp == t.users[me.id].otp
            && o.result.payload.row.passwordResetToken == t.users[me.id].passwordResetToken)
      && (me.id !in t.users ==> o.result.Fail? && o.result.error.statusCode == 0
                                && o.result.error.status == "error")
  {
  }

  // ================================================================ updateMe

  /** `PATCH /update-me` with body `{ name }`. */
  function UpdateMeSpec(t: Tables, me: Identity, name: string): Outcome
  {
    if name == "" then Outcome(t, Reject(NameRequired, 400), Unconnected)
    else if me.id !in t.users then Outcome(t, Fail(NoRowName), InTxn)
    else if name == t.users[me.id].name then Outcome(t, Reject(SameName, 400), InTxn)
    else
      Outcome(t.(users := t.users[me.id := t.users[me.id].(name := name)]),
              Respond(200, Profile(me.id, name, me.email), KeepCookie), Released)
  }

  method UpdateMe(db: Database, req: Request, name: string) returns (r: HandlerResult)
    requires db.Idle() && req.user.Some?
    modifies db, req
    ensures db.Valid() && req.user == old(req.user)
    ensures var o := UpdateMeSpec(old(db.tables), old(req.user).value, name);
      && r == o.result && db.tables == o.tables
      && Left(o.reach, old(db.tables), old(db.nextLease), old(req.pgClient), req.pgClient, db.leased, db.txn)
  {
    if name == "" {
      return Reject(NameRequired, 400);
    }
    var id := req.user.value.id;
    var email := req.user.value.email;
    var client := db.Connect();
    req.pgClient := Some(client);
    db.Begin(client);

    if id !in db.tables.users {
      return Fail(NoRowName);
    }
    var row := db.tables.users[id];
    if name == row.name {
      return Reject(SameName, 400);
    }
    // `name ?? user.rows[0].name` is `name`, which is not empty here.
    var renamed := row.(name := name);
    ReplaceAccountValid(db.tables, db.nextId, id, renamed);
    db.Store(db.tables.(users := db.tables.users[id := renamed]));
    db.Commit(client);
    var released := db.Release(client);
    r := Respond(200, Profile(id, name, email), KeepCookie);
  }

  /** updateMe changes the caller's name, and only that, exactly when the
      new name is given and differs from the stored one. A missing name is a
      400 before any client is taken, an unchanged name a 400 after the
      lookup, and a caller whose row is gone gets the TypeError. */
  lemma UpdateMeRenames(t: Tables, next: nat, me: Identity, name: string)
    requires TablesValid(t, next)
    ensures var o := UpdateMeSpec(t, me, name);
      && (name == "" ==> o == Outcome(t, Reject(NameRequired, 400), Unconnected))
      && (name != "" && me.id !in t.users ==> o.result == Fail(NoRowName))
      && (name != "" && me.id in t.users && t.users[me.id].name == name ==> o.result == Reject(SameName, 400))
      && (o.result.Respond? <==> name != "" && me.id in t.users && t.users[me.id].name != name)
      && (o.result.Respond? ==>
            && o.tables.users.Keys == t.users.Keys
            && o.tables.users[me.id].name == name
            && o.tables.users[me.id].(name := t.users[me.id].name) == t.users[me.id]
            && (forall id :: id in t.users && id != me.id ==> o.tables.users[id] == t.users[id])
            && o.tables.posts == t.posts && o.tables.comments == t.comments)
      && (!o.result.Respond? ==> o.tables == t)
      && TablesValid(o.tables, next)
  {
    if name != "" && me.id in t.users && t.users[me.id].name != name {
      ReplaceAccountValid(t, next, me.id, t.users[me.id].(name := name));
    }
  }

  // ================================================================ updateMyPassword

  /** `PATCH /update-my-password`. After its three checks the handler calls
      `client.query` on a `client` that does not exist in its scope: the
      ReferenceError is all it can produce there. */
  function UpdateMyPasswordSpec(t: Tables, oldPassword: string, newPassword: string,
                                newPasswordConfirm: string): Outcome
  {
    if oldPassword == "" || newPassword == "" || newPasswordConfirm == "" then
      Outcome(t, Reject(AllFieldsRequired, 400), Unconnected)
    else if newPassword != newPasswordConfirm then Outcome(t, Reject(PasswordsDiffer, 400), Unconnected)
    else if oldPassword == newPassword then Outcome(t, Reject(SamePassword, 400), Unconnected)
    else Outcome(t, Fail(NoClient), Unconnected)
  }

  method UpdateMyPassword(db: Database, req: Request, oldPassword: string, newPassword: string,
                          newPasswordConfirm: string, ext: AuthController.Externals)
    returns (r: HandlerResult)
    requires db.Idle() && req.user.Some?
    modifies db, req
    ensures db.Valid() && req.user == old(req.user)
    ensures var o := UpdateMyPasswordSpec(old(db.tables), oldPassword, newPassword, newPasswordConfirm);
      && r == o.result && db.tables == o.tables
      && Left(o.reach, old(db.tables), old(db.nextLease), old(req.pgClient), req.pgClient, db.leased, db.txn)
  {
    if oldPassword == "" || newPassword == "" || newPasswordConfirm == "" {
      return Reject(AllFieldsRequired, 400);
    }
    if newPassword != newPasswordConfirm {
      return Reject(PasswordsDiffer, 400);
    }
    if oldPassword == newPassword {
      return Reject(SamePassword, 400);
    }
    var hashedPassword := ext.bcryptHash(newPassword);
    r := Fail(NoClient);
  }

  /** No request changes a password through updateMyPassword: every call
      fails before touching the database, and the old password is never
      compared with the stored hash. */
  lemma UpdateMyPasswordNeverWrites(t: Tables, oldPassword: string, newPassword: string,
                                    newPasswordConfirm: string)
    ensures var o := UpdateMyPasswordSpec(t, oldPassword, newPassword, newPasswordConfirm);
      && o.tables == t && o.result.Fail? && o.reach == Unconnected
      && (o.result.error.isOperational <==>
            oldPassword == "" || newPassword == "" || newPasswordConfirm == ""
            || newPassword != newPasswordConfirm || oldPassword == newPassword)
  {
  }

  // ================================================================ deleteMe

  /** `DELETE /delete-me`: a soft delete. The handler's `if (!user)` tests
      the query result object, which is never falsy, so an email that is not
      the caller's reaches the destructuring of a missing row. */
  function DeleteMeSpec(t: Tables, me: Identity, confirmEmail: string, confirmPassword: string,
                        ext: AuthController.Externals): Outcome
  {
    if confirmEmail == "" || confirmPassword == "" then Outcome(t, Reject(BothFieldsRequired, 400), Unconnected)
    else if me.id !in t.users || t.users[me.id].email != confirmEmail then Outcome(t, Fail(NoRowPassword), InTxn)
    else if !ext.bcryptCompare(confirmPassword, t.users[me.id].passwordHash) then
      Outcome(t, Reject(BadCredentials, 401), InTxn)
    else
      Outcome(t.(users := t.users[me.id := t.users[me.id].(isActive := false)]),
              Respond(200, Message(AccountDeleted), ClearJwt), Released)
  }

  method DeleteMe(db: Database, req: Request, confirmEmail: string, confirmPassword: string,
                  ext: AuthController.Externals)
    returns (r: HandlerResult)
    requires db.Idle() && req.user.Some?
    modifies db, req
    ensures db.Valid() && req.user == old(req.user)
    ensures var o := DeleteMeSpec(old(db.tables), old(req.user).value, confirmEmail, confirmPassword, ext);
      && r == o.result && db.tables == o.tables
      && Left(o.reach, old(db.tables), old(db.nextLease), old(req.pgClient), req.pgClient, db.leased, db.txn)
  {
    if confirmEmail == "" || confirmPassword == "" {
      return Reject(BothFieldsRequired, 400);
    }
    var id := req.user.value.id;
    var client := db.Connect();
    req.pgClient := Some(client);
    db.Begin(client);

    // SELECT * FROM users WHERE id = $1 AND email = $2
    if id !in db.tables.users || db.tables.users[id].email != confirmEmail {
      return Fail(NoRowPassword);
    }
    var password := db.tables.users[id].passwordHash;
    var isMatch := ext.bcryptCompare(confirmPassword, password);
    if !isMatch {
      return Reject(BadCredentials, 401);
    }

    var deactivated := db.tables.users[id].(isActive := false);
    ReplaceAccountValid(db.tables, db.nextId, id, deactivated);
    db.Store(db.tables.(users := db.tables.users[id := deactivated]));
    db.Commit(client);
    var released := db.Release(client);
    r := Respond(200, Message(AccountDeleted), ClearJwt);
  }

  /** deleteMe, given the caller's own email and password, clears isActive
      on the caller's row and on nothing else, keeps the row, and clears the
      cookie. After it, login is refused. A wrong email is not answered with
      401 but raises a TypeError; the caller's own email with a wrong
      password is a 401, and a missing field a 400 before any client is
      taken. */
  lemma DeleteMeDeactivates(t: Tables, next: nat, me: Identity, confirmEmail: string,
                            confirmPassword: string, ext: AuthController.Externals, loginAt: int)
    requires TablesValid(t, next)
    ensures var o := DeleteMeSpec(t, me, confirmEmail, confirmPassword, ext);
      var given := confirmEmail != "" && confirmPassword != "";
      && (!given ==> o == Outcome(t, Reject(BothFieldsRequired, 400), Unconnected))
      && (o.result.Respond? <==>
            given && me.id in t.users && t.users[me.id].email == confirmEmail
            && ext.bcryptCompare(confirmPassword, t.users[me.id].passwordHash))
      && (o.result.Respond? ==>
            && o.result.cookie == ClearJwt
            && o.tables == t.(users := t.users[me.id := t.users[me.id].(isActive := false)])
            && TablesValid(o.tables, next)
            && !AuthController.LoginSpec(o.tables, confirmEmail, confirmPassword, ext, loginAt).result.Respond?)
      && (given && (me.id !in t.users || t.users[me.id].email != confirmEmail) ==> o.result == Fail(NoRowPassword))
      && (given && me.id in t.users && t.users[me.id].email == confirmEmail
          && !ext.bcryptCompare(confirmPassword, t.users[me.id].passwordHash) ==>
            o.result == Reject(BadCredentials, 401))
      && (!o.result.Respond? ==> o.tables == t)
  {
    var o := DeleteMeSpec(t, me, confirmEmail, confirmPassword, ext);
    if o.result.Respond? {
      ReplaceAccountValid(t, next, me.id, t.users[me.id].(isActive := false));
      UserByEmailFinds(o.tables.users, confirmEmail, me.id);
    }
  }

  // ================================================================ admin: getUser, deleteUser

  /** `GET /user/:userId`. */
  function GetUserSpec(t: Tables, userId: IdParam): Outcome
  {
    if userId.NotUuid? then Outcome(t, Fail(BadUuid()), InTxn)
    else if userId.Absent? || userId.id !in t.users then Outcome(t, Reject(UserNotFound, 404), InTxn)
    else Outcome(t, Respond(200, UserRow(userId.id, t.users[userId.id]), KeepCookie), Released)
  }

  method GetUser(db: Database, req: Request, userId: IdParam) returns (r: HandlerResult)
    requires db.Idle()
    modifies db, req
    ensures db.Valid() && req.user == old(req.user)
    ensures var o := GetUserSpec(old(db.tables), userId);
      && r == o.result && db.tables == o.tables
      && Left(o.reach, old(db.tables), old(db.nextLease), old(req.pgClient), req.pgClient, db.leased, db.txn)
  {
    var client := db.Connect();
    req.pgClient := Some(client);
    db.Begin(client);

    if userId.NotUuid? {
      return Fail(BadUuid());
    }
    if !userId.Given? || userId.id !in db.tables.users {
      return Reject(UserNotFound, 404);
    }
    var user := db.tables.users[userId.id];
    db.Commit(client);
    var released := db.Release(client);
    r := Respond(200, UserRow(userId.id, user), KeepCookie);
  }

  /** `DELETE /user/:userId`: the admin's soft delete of any account. */
  function DeleteUserSpec(t: Tables, userId: IdParam): Outcome
  {
    if userId.NotUuid? then Outcome(t, Fail(BadUuid()), InTxn)
    else if userId.Absent? || userId.id !in t.users then Outcome(t, Reject(NoSuchUser, 404), InTxn)
    else
      Outcome(t.(users := t.users[userId.id := t.users[userId.id].(isActive := false)]),
              Respond(200, Message(UserDeleted), KeepCookie), Released)
  }

  method DeleteUser(db: Database, req: Request, userId: IdParam) returns (r: HandlerResult)
    requires db.Idle()
    modifies db, req
    ensures db.Valid() && req.user == old(req.user)
    ensures var o := DeleteUserSpec(old(db.tables), userId);
      && r == o.result && db.tables == o.tables
      && Left(o.reach, old(db.tables), old(db.nextLease), old(req.pgClient), req.pgClient, db.leased, db.txn)
  {
    var client := db.Connect();
    req.pgClient := Some(client);
    db.Begin(client);

    if userId.NotUuid? {
      return Fail(BadUuid());
    }
    if !userId.Given? || userId.id !in db.tables.users {
      return Reject(NoSuchUser, 404);
    }
    var id := userId.id;
    var deactivated := db.tables.users[id].(isActive := false);
    ReplaceAccountValid(db.tables, db.nextId, id, deactivated);
    db.Store(db.tables.(users := db.tables.users[id := deactivated]));
    db.Commit(client);
    var released := db.Release(client);
    r := Respond(200, Message(UserDeleted), KeepCookie);
  }

  /** getUser shows, and deleteUser deactivates, exactly the named row; a
      deletion keeps the row and clears only isActive. An id that is not a
      UUID reaches the database and comes back as SQLSTATE 22P02; a missing
      or unknown id is a 404 from both handlers. */
  lemma AdminHandlersTargetOneRow(t: Tables, next: nat, userId: IdParam)
    requires TablesValid(t, next)
    ensures userId.Absent? || (userId.Given? && userId.id !in t.users) ==>
              && GetUserSpec(t, userId).result == Reject(UserNotFound, 404)
              && DeleteUserSpec(t, userId) == Outcome(t, Reject(NoSuchUser, 404), InTxn)
    ensures GetUserSpec(t, userId).tables == t
    ensures GetUserSpec(t, userId).result.Respond? <==> userId.Given? && userId.id in t.users
    ensures GetUserSpec(t, userId).result.Respond? ==>
              GetUserSpec(t, userId).result.payload == UserRow(userId.id, t.users[userId.id])
    ensures var o := DeleteUserSpec(t, userId);
      && (o.result.Respond? <==> userId.Given? && userId.id in t.users)
      && (o.result.Respond? ==>
            && o.tables.users.Keys == t.users.Keys
            && !o.tables.users[userId.id].isActive
            && o.tables.users[userId.id].(isActive := t.users[userId.id].isActive) == t.users[userId.id]
            && (forall id :: id in t.users && id != userId.id ==> o.tables.users[id] == t.users[id]))
      && (!o.result.Respond? ==> o.tables == t)
      && (userId.NotUuid? ==> o.result.Fail? && o.result.error.code == "22P02")
      && TablesValid(o.tables, next)
  {
    if userId.Given? && userId.id in t.users {
      ReplaceAccountValid(t, next, userId.id, t.users[userId.id].(isActive := false));
    }
  }

  // ================================================================ admin: getAllUsers

  /** What PostgreSQL answers to the built query: some rows, or an error
      (an unknown column named in `fields` or `sort`, a bad operand, ...).
      The query text itself is not executed by this model. */
  datatype SqlAnswer = RowsBack(count: nat) | SqlError(code: string, column: string, message: string)

  /** The statement getAllUsers sends, laid out as its template literal. */
  function UsersSql(q: Query, whereByClause: string): string
  {
    "\n    SELECT " + ApplyFieldLimiting(q) + "\n    FROM users \n    " + whereByClause
    + "\n    " + ApplySorting(q) + " \n    " + ApplyPagination(q) + "\n  "
  }

  function AnswerSpec(t: Tables, answer: SqlAnswer): Outcome
  {
    match answer
    case SqlError(code, column, message) => Outcome(t, Fail(DatabaseError(code, column, message)), InTxn)
    case RowsBack(count) =>
      if count == 0 then Outcome(t, Reject(NoMatchingRecords, 404), InTxn)
      else Outcome(t, Respond(200, Rows(count), KeepCookie), Released)
  }

  /** `GET /all-users`. It returns the statement and its parameter values
      along with the response. */
  method GetAllUsers(db: Database, req: Request, q: Query, answer: SqlAnswer)
    returns (r: HandlerResult, sql: string, values: seq<Param>)
    requires db.Idle()
    modifies db, req
    ensures db.Valid() && req.user == old(req.user)
    ensures var kept := Retained(q);
      && sql == UsersSql(q, WhereClause(FilterTexts(KeysOf(kept), 1)))
      && |values| == |kept| && (forall i :: 0 <= i < |kept| ==> values[i] == Coerce(kept[i].1))
    ensures var o := AnswerSpec(old(db.tables), answer);
      && r == o.result && db.tables == o.tables
      && Left(o.reach, old(db.tables), old(db.nextLease), old(req.pgClient), req.pgClient, db.leased, db.txn)
  {
    var client := db.Connect();
    req.pgClient := Some(client);
    db.Begin(client);

    var selectedFields := ApplyFieldLimiting(q);
    var whereByClause;
    whereByClause, values := ApplyFiltering(q);
    var limitClause := ApplyPagination(q);
    var orderByClause := ApplySorting(q);
    sql := "\n    SELECT " + selectedFields + "\n    FROM users \n    " + whereByClause
           + "\n    " + orderByClause + " \n    " + limitClause + "\n  ";

    if answer.SqlError? {
      return Fail(DatabaseError(answer.code, answer.column, answer.message)), sql, values;
    }
    if answer.count == 0 {
      return Reject(NoMatchingRecords, 404), sql, values;
    }
    db.Commit(client);
    var released := db.Release(client);
    r := Respond(200, Rows(answer.count), KeepCookie);
  }

  /** The statement getAllUsers sends never contains a filter value: two
      queries with the same keys and the same `fields`, `sort`, `page` and
      `limit` give the same text. */
  lemma UsersSqlIgnoresFilterValues(q1: Query, q2: Query)
    requires KeysOf(q1) == KeysOf(q2)
    requires Get(q1, "fields") == Get(q2, "fields") && Get(q1, "sort") == Get(q2, "sort")
    requires Get(q1, "page") == Get(q2, "page") && Get(q1, "limit") == Get(q2, "limit")
    ensures UsersSql(q1, WhereClause(FilterTexts(KeysOf(Retained(q1)), 1))) ==
            UsersSql(q2, WhereClause(FilterTexts(KeysOf(Retained(q2)), 1)))
  {
    ClauseIgnoresValues(q1, q2);
    SameControls(q1, q2);
  }

  lemma SameControls(q1: Query, q2: Query)
    requires Get(q1, "fields") == Get(q2, "fields") && Get(q1, "sort") == Get(q2, "sort")
    requires Get(q1, "page") == Get(q2, "page") && Get(q1, "limit") == Get(q2, "limit")
    ensures ApplyFieldLimiting(q1) == ApplyFieldLimiting(q2)
    ensures ApplySorting(q1) == ApplySorting(q2)
    ensures ApplyPagination(q1) == ApplyPagination(q2)
  {
    SameFields(q1, q2);
    SameSort(q1, q2);
    SamePages(q1, q2);
  }

  lemma SameFields(q1: Query, q2: Query)
    requires Get(q1, "fields") == Get(q2, "fields")
    ensures ApplyFieldLimiting(q1) == ApplyFieldLimiting(q2)
  {
    assert Truthy(q1, "fields") == Truthy(q2, "fields");
  }

  lemma SameSort(q1: Query, q2: Query)
    requires Get(q1, "sort") == Get(q2, "sort")
    ensures ApplySorting(q1) == ApplySorting(q2)
  {
    assert Truthy(q1, "sort") == Truthy(q2, "sort");
  }

  lemma SamePages(q1: Query, q2: Query)
    requires Get(q1, "page") == Get(q2, "page") && Get(q1, "limit") == Get(q2, "limit")
    ensures ApplyPagination(q1) == ApplyPagination(q2)
  {
    assert Page(q1) == Page(q2) && Limit(q1) == Limit(q2);
  }
}
