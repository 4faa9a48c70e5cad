/** The terminal Express error middleware: it cleans up the request's pool
    client and turns any error into a JSON `{status, message}` response.

    The cleanup is the imperative part (`Handle`); the SQLSTATE switch, the
    JWT error names and the response shape for each NODE_ENV are pure
    (`MapCode`, `Classify`, `Render`). */
module GlobalErrorHandler {
  import opened Basics
  import opened Http
  import opened Runtime

  const ConflictCodes: set<string> := {"23505"}
  const ClientCodes: set<string> := {"23503", "22P02", "23502", "42703", "22012", "22001", "22003"}
  const ServerCodes: set<string> := {"42P01", "42601", "42883"}
  const RetryCodes: set<string> := {"40001", "40P01"}

  /** The switch on `err.code`, cases tried in source order (so the first of
      the two `22P02` cases is the one taken): the message and status of the
      AppError each case builds. */
  function CodeCase(code: string, column: string): (string, int)
  {
    if code == "23505" then ("Duplicate value violates unique constraint.", 409)
    else if code == "23503" then ("Invalid reference. Related record not found.", 400)
    else if code == "22P02" then ("Invalid UUID format. Please provide a valid UUID.", 400)
    else if code == "23502" then ("Missing required field: " + column, 400)
    else if code == "22P02" then ("Invalid input syntax.", 400)
    else if code == "42703" then ("Invalid column in query.", 400)
    else if code == "42P01" then ("Invalid table in query.", 500)
    else if code == "42601" then ("SQL syntax error.", 500)
    else if code == "42883" then ("Invalid SQL function/operator.", 500)
    else if code == "40001" then ("Transaction failed due to concurrency. Please retry.", 503)
    else if code == "40P01" then ("Deadlock detected. Please retry.", 503)
    else if code == "22012" then ("Division by zero error.", 400)
    else if code == "22001" then ("Input string too long for column.", 400)
    else if code == "22003" then ("Number out of range for column type.", 400)
    else ("Some unknown error occurred.", 500)
  }

  /** The AppError the switch builds for `code`. */
  function MapCode(code: string, column: string): (e: Failure)
    ensures e.isOperational
    ensures e.status == (if 400 <= e.statusCode < 500 then "fail" else "error")
    ensures code == "22P02" ==> e.message == "Invalid UUID format. Please provide a valid UUID."
    ensures code == "23502" ==> e.message == "Missing required field: " + column
  {
    var c := CodeCase(code, column);
    AppError(c.0, c.1)
  }

  /** Each SQLSTATE class gets its status, in both directions, and every
      code the switch does not name falls to the default. */
  lemma MapCodeClasses(code: string, column: string)
    ensures var e := MapCode(code, column);
      && (e.statusCode == 409 <==> code in ConflictCodes)
      && (e.statusCode == 400 <==> code in ClientCodes)
      && (e.statusCode == 503 <==> code in RetryCodes)
      && (e.statusCode == 500 <==> code !in ConflictCodes + ClientCodes + RetryCodes)
      && (code !in ConflictCodes + ClientCodes + ServerCodes + RetryCodes ==>
            e.message == "Some unknown error occurred.")
  {
    if code in ConflictCodes {
      assert code == "23505";
      assert code !in ClientCodes + RetryCodes;
    } else if code in ClientCodes {
      ClientCodesGive400(code, column);
    } else if code in RetryCodes {
      RetryCodesGive503(code, column);
    } else {
      OtherCodesGive500(code, column);
    }
  }

  /** Every client-class code maps to 400. */
  lemma ClientCodesGive400(code: string, column: string)
    requires code in ClientCodes
    ensures MapCode(code, column).statusCode == 400 && code !in RetryCodes
  {
    if code == "23503" {
    } else if code == "22P02" {
    } else if code == "23502" {
    } else if code == "42703" {
    } else if code == "22012" {
    } else if code == "22001" {
    } else {
      assert code == "22003";
    }
  }

  /** Both retry-class codes map to 503. */
  lemma RetryCodesGive503(code: string, column: string)
    requires code in RetryCodes
    ensures MapCode(code, column).statusCode == 503
  {
    if code == "40001" {
    } else {
      assert code == "40P01";
    }
  }

  /** A code outside the 409, 400 and 503 classes maps to 500, and one the
      switch does not name at all gets the generic message. */
  lemma OtherCodesGive500(code: string, column: string)
    requires code !in ConflictCodes + ClientCodes + RetryCodes
    ensures MapCode(code, column).statusCode == 500
    ensures code !in ServerCodes ==> MapCode(code, column).message == "Some unknown error occurred."
  {
    if code == "42P01" {
    } else if code == "42601" {
    } else if code == "42883" {
    } else {
    }
  }

  /** `err.statusCode ||= 500; err.status ||= "error"`. */
  function Normalised(err: Failure): (e: Failure)
    ensures e.statusCode != 0 && e.status != ""
    ensures e.statusCode == (if err.statusCode != 0 then err.statusCode else 500)
    ensures e.status == (if err.status != "" then err.status else "error")
    ensures e.(statusCode := err.statusCode, status := err.status) == err
  {
    err.(statusCode := if err.statusCode != 0 then err.statusCode else 500,
         status := if err.status != "" then err.status else "error")
  }

  const InvalidToken := AppError("Invalid token. Please log in.", 401)
  const ExpiredToken := AppError("Token has expired. Please log in again.", 401)

  /** `customError`: the code mapping when `err.code` is set, overridden by
      the two JWT error names; the error itself otherwise. */
  function Classify(err: Failure): (c: Failure)
    ensures err.name == "TokenExpiredError" ==> c == ExpiredToken
    ensures err.name == "JsonWebTokenError" ==> c == InvalidToken
    ensures err.name != "TokenExpiredError" && err.name != "JsonWebTokenError" ==>
              c == if err.code != "" then MapCode(err.code, err.column) else err
    ensures err.code != "" || err.name == "TokenExpiredError" || err.name == "JsonWebTokenError" ==>
              c.isOperational && c.status == (if 400 <= c.statusCode < 500 then "fail" else "error")
  {
    var mapped := if err.code != "" then MapCode(err.code, err.column) else err;
    var named := if err.name == "JsonWebTokenError" then InvalidToken else mapped;
    if err.name == "TokenExpiredError" then ExpiredToken else named
  }

  const Masked := "Something went wrong"

  /** The response for an already normalised error, by NODE_ENV. */
  function Present(e: Failure, env: string): Rendered
  {
    if env == "development" then Rendered(e.statusCode, e.status, e.message, Some(e))
    else if env == "production" then
      var c := Classify(e);
      Rendered(if c.statusCode != 0 then c.statusCode else 500, c.status,
               if !c.isOperational then Masked else c.message, None)
    else Silent
  }

  /** The response the handler renders for `err` once the cleanup is done.
      Development shows the error itself with the two defaults and ignores
      the mapping; production shows the mapped error, never with HTTP status
      0, with the JSON `status` of the mapped AppError ("fail" for 4xx) or
      the error's own (default "error"), and masks the message of every
      non-operational error; any other
      NODE_ENV renders nothing. */
  function Render(err: Failure, env: string): (r: Rendered)
    ensures env == "development" ==>
              r == Rendered(if err.statusCode != 0 then err.statusCode else 500,
                            if err.status != "" then err.status else "error",
                            err.message, Some(Normalised(err)))
    ensures env == "production" ==>
              && r.Rendered? && r.detail.None? && r.httpStatus != 0
              && r.httpStatus == (if Classify(err).statusCode != 0 then Classify(err).statusCode else 500)
              && r.message == (if Classify(err).isOperational then Classify(err).message else Masked)
              && r.status == (if err.code != "" || err.name == "TokenExpiredError" || err.name == "JsonWebTokenError"
                              then (if 400 <= r.httpStatus < 500 then "fail" else "error")
                              else if err.status != "" then err.status else "error")
    ensures env != "development" && env != "production" ==> r == Silent
  {
    var e := Normalised(err);
    assert Classify(e).statusCode == 0 ==> Classify(err).statusCode == 0 || Classify(err).statusCode == 500;
    Present(e, env)
  }

  /** In production an error with a SQLSTATE code gets the status of its
      class, unless a JWT error name overrides it with 401. */
  lemma ProductionStatusByCode(err: Failure)
    requires err.code != ""
    ensures var r := Render(err, "production");
      && (err.name == "TokenExpiredError" || err.name == "JsonWebTokenError" ==> r.httpStatus == 401)
      && (err.name != "TokenExpiredError" && err.name != "JsonWebTokenError" ==>
            && (err.code in ConflictCodes <==> r.httpStatus == 409)
            && (err.code in ClientCodes <==> r.httpStatus == 400)
            && (err.code in RetryCodes <==> r.httpStatus == 503)
            && (err.code !in ConflictCodes + ClientCodes + RetryCodes <==> r.httpStatus == 500))
  {
    MapCodeClasses(err.code, err.column);
  }

  /** In production an unexpected error (not an AppError, no code, not a
      JWT error) always reads "Something went wrong"; its status is its own
      statusCode, or 500. */
  lemma ProductionMasksUnexpected(err: Failure)
    requires !err.isOperational && err.code == ""
    requires err.name != "TokenExpiredError" && err.name != "JsonWebTokenError"
    ensures Render(err, "production") ==
      Rendered(if err.statusCode != 0 then err.statusCode else 500,
               if err.status != "" then err.status else "error", Masked, None)
  {
  }

  const DoubleRelease := RuntimeError("Error", "Release called on client which has already been released to the pool.")

  /** `globalErrorHandler(err, req, res, next)`. When `req.pgClient` is set it
      issues ROLLBACK (which may throw, `rollbackThrows`, and is then only
      logged), releases the client in `finally` and nulls `req.pgClient`.
      A client that was already released makes `release()` throw out of the
      `finally`: nothing after it runs and no response is rendered. */
  method Handle(db: Database, req: Request, err: Failure, env: string, rollbackThrows: bool)
    returns (out: Rendered)
    requires db.Valid()
    modifies db, req
    ensures db.Valid()
    ensures req.user == old(req.user)
    ensures db.nextId == old(db.nextId) && db.nextLease == old(db.nextLease)
    ensures old(req.pgClient).None? ==>
              && out == Render(err, env) && req.pgClient.None?
              && db.tables == old(db.tables) && db.txn == old(db.txn) && db.leased == old(db.leased)
    ensures old(req.pgClient).Some? ==>
              var l := old(req.pgClient).value;
              && db.leased == old(db.leased) - {l}
              && (l in old(db.leased) ==> out == Render(err, env) && req.pgClient.None?)
              && (l !in old(db.leased) ==> out == Crashed(DoubleRelease) && req.pgClient == old(req.pgClient))
              && (!rollbackThrows && old(db.txn).Some? && old(db.txn).value.owner == l ==>
                    db.txn.None? && db.tables == old(db.txn).value.saved)
              && (rollbackThrows || old(db.txn).None? || old(db.txn).value.owner != l ==>
                    db.txn == old(db.txn) && db.tables == old(db.tables))
  {
    var e := err;
    if e.statusCode == 0 {
      e := e.(statusCode := 500);
    }
    if e.status == "" {
      e := e.(status := "error");
    }
    assert e == Normalised(err);

    if req.pgClient.Some? {
      var client := req.pgClient.value;
      if !rollbackThrows {
        db.Rollback(client);
      }
      var released := db.Release(client);
      if !released {
        return Crashed(DoubleRelease);
      }
      req.pgClient := None;
    }

    out := Present(e, env);
  }
}
