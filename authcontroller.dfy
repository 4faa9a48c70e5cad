/** Sign-up with e-mail verification, login, password reset, and the two
    route guards (protectRoute, restrictTo).

    Each handler is a method that follows the source statement by statement:
    it checks its fields, checks out a pool client and records it in
    `req.pgClient`, opens a transaction, reads and writes the users table,
    and commits and releases on success. On every failure it hands an error
    to Express and leaves the client to the error handler. Each method is
    proved equal to a pure function of the tables and its inputs
    (`SignupSpec`, `LoginSpec`, ...), and the lemmas below state what those
    functions mean.

    bcrypt, SHA-256, the JWT library, the e-mail validator, the OTP
    generator, the reset-token generator, the clock and nodemailer are not
    modelled: the first five are the fields of `Externals`, and the rest
    arrive as parameters (`otp`, `rawToken`, `now` in milliseconds, and
    `delivered`, which is whether `sendEmail` resolved). */
module AuthController {
  import opened Basics
  import opened Schema
  import opened Http
  import opened Runtime

  /** What `jwt.verify` yields: the payload's `id` and `iat` (seconds), or
      the error it throws (`JsonWebTokenError`, `TokenExpiredError`). */
  datatype TokenCheck = Decoded(id: UserId, iat: int) | Rejected(name: string, message: string)

  datatype Externals = Externals(
    bcryptHash: string -> string,
    bcryptCompare: (string, string) -> bool,
    sha256: string -> string,
    isEmail: string -> bool,
    signToken: (UserId, int) -> string,  // the user's id and the time of signing
    verifyToken: (string, int) -> TokenCheck)

  /** `15 * 60 * 1000`: how long a one-time code and a reset token stay valid. */
  const OtpLifetime := 900000

  const AllFieldsRequired := "All fields are required."
  const UserExists := "User already exists. Please sign in."
  const InvalidEmail := "Please enter a valid email."
  const ShortPassword := "Password must be at least 6 characters."
  const PasswordsDiffer := "Passwords do not match."
  const SignupFailed := "Sorry, we couldn't sign you up. Try again later."
  const NoSuchEmail := "Invalid email or password. Invalid email."
  const NotActive := "Invalid email or password. Not active"
  const NotVerified := "Invalid email or password. Email verification"
  const WrongPassword := "Invalid email or password. Not matching password."
  const BadOtp := "Invalid or expired OTP"
  const EmailVerified := "Email verified successfully. Please sign in."
  const EmailRequired := "Email is required."
  const Unregistered := "Unregistered user. Please sign up."
  const AlreadyVerified := "Email already verified. Please sign in."
  const ResendFailed := "Sorry, we couldn't send you OTP. Try again later."
  const OtpSent := "We've sent you the requested OTP. Please check your email."
  const ResetSent := "Password reset token has been successfully sent to your email."
  const ResetFieldsRequired := "All fields is required."
  const NoResetRow := "Reset token has expired or some error has occurred."
  const ResetRejected := "Expired or invalid reset token."
  const PasswordReset := "New password created successfully. Please sign in."
  const TokenNotFound := "Token not found. Please log in again."
  const UserGone := "User belonging to this token does not exist."
  const PasswordChanged := "Password changed recently. Please sign in again for security reasons."
  const Forbidden := "Forbidden. Access denied."

  /** `otpexpiresat.getTime()` on a NULL column. */
  const NullExpiry := RuntimeError("TypeError", "Cannot read properties of null (reading 'getTime')")
  /** Destructuring `req.user` when no guard set it. */
  const NoUser := RuntimeError("TypeError", "Cannot destructure property 'role' of 'req.user' as it is undefined.")

  // ================================================================ signup

  /** `POST /signup`. Request fields are strings, "" standing for a missing
      one (both are falsy). */
  function SignupSpec(t: Tables, newId: UserId, name: string, email: string, password: string,
                      passwordConfirm: string, ext: Externals, now: int, otp: string,
                      delivered: bool): Outcome
    requires EmailsUnique(t.users)
  {
    if name == "" || email == "" || password == "" || passwordConfirm == "" then
      Outcome(t, Reject(AllFieldsRequired, 400), Unconnected)
    else if UserByEmail(t.users, email).Some? then Outcome(t, Reject(UserExists, 400), Held)
    else if !ext.isEmail(email) then Outcome(t, Reject(InvalidEmail, 400), Held)
    else if |password| < 6 then Outcome(t, Reject(ShortPassword, 400), Held)
    else if password != passwordConfirm then Outcome(t, Reject(PasswordsDiffer, 400), Held)
    else if !delivered then Outcome(t, Reject(SignupFailed, 500), Held)
    else
      var a := NewAccount(name, email, ext.bcryptHash(password), otp, now + OtpLifetime, now);
      Outcome(t.(users := t.users[newId := a]), Respond(201, NewUser(newId, name, email), KeepCookie), Released)
  }

  method Signup(db: Database, req: Request, name: string, email: string, password: string,
                passwordConfirm: string, ext: Externals, now: int, otp: string, delivered: bool)
    returns (r: HandlerResult)
    requires db.Idle()
    modifies db, req
    ensures db.Valid() && req.user == old(req.user)
    ensures var o := SignupSpec(old(db.tables), old(db.nextId), name, email, password,
                                passwordConfirm, ext, now, otp, delivered);
      && r == o.result && db.tables == o.tables
      && Left(o.reach, old(db.tables), old(db.nextLease), old(req.pgClient), req.pgClient, db.leased, db.txn)
  {
    if name == "" || email == "" || password == "" || passwordConfirm == "" {
      return Reject(AllFieldsRequired, 400);
    }
    var client := db.Connect();
    req.pgClient := Some(client);

    var existing := UserByEmail(db.tables.users, email);
    if existing.Some? {
      return Reject(UserExists, 400);
    }
    if !ext.isEmail(email) {
      return Reject(InvalidEmail, 400);
    }
    if |password| < 6 {
      return Reject(ShortPassword, 400);
    }
    if password != passwordConfirm {
      return Reject(PasswordsDiffer, 400);
    }

    db.Begin(client);
    var hashedPassword := ext.bcryptHash(password);
    var id := db.FreshId();
    var row := NewAccount(name, email, hashedPassword, otp, now + OtpLifetime, now);
    InsertAccountValid(db.tables, db.nextId, id, row);
    db.Store(db.tables.(users := db.tables.users[id := row]));

    if !delivered {
      db.Rollback(client);
      return Reject(SignupFailed, 500);
    }

    db.Commit(client);
    var released := db.Release(client);
    r := Respond(201, NewUser(id, name, email), KeepCookie);
  }

  /** Sign-up succeeds exactly when every field is given, the email is new
      and valid, the password has six characters or more and is confirmed,
      and the OTP e-mail goes out; it then adds one unverified account with
      the hash of the password and a code valid for 15 minutes, and changes
      nothing else. The refusals come in source order: a missing field
      (before any client is taken), a registered email, a malformed email, a
      short password and a mismatched confirmation are each a 400, a failed
      delivery a 500, and these leave the tables as they were and the client
      held for the error middleware. */
  lemma SignupSucceedsIff(t: Tables, newId: UserId, name: string, email: string, password: string,
                          passwordConfirm: string, ext: Externals, now: int, otp: string, delivered: bool)
    requires TablesValid(t, newId)
    ensures var o := SignupSpec(t, newId, name, email, password, passwordConfirm, ext, now, otp, delivered);
      var given := name != "" && email != "" && password != "" && passwordConfirm != "";
      var isNew := forall id :: id in t.users ==> t.users[id].email != email;
      && (!given ==> o == Outcome(t, Reject(AllFieldsRequired, 400), Unconnected))
      && (given && !isNew ==> o == Outcome(t, Reject(UserExists, 400), Held))
      && (given && isNew && !ext.isEmail(email) ==> o == Outcome(t, Reject(InvalidEmail, 400), Held))
      && (given && isNew && ext.isEmail(email) && |password| < 6 ==>
            o == Outcome(t, Reject(ShortPassword, 400), Held))
      && (given && isNew && ext.isEmail(email) && |password| >= 6 && password != passwordConfirm ==>
            o == Outcome(t, Reject(PasswordsDiffer, 400), Held))
      && (given && isNew && ext.isEmail(email) && |password| >= 6 && password == passwordConfirm && !delivered ==>
            o == Outcome(t, Reject(SignupFailed, 500), Held))
      && (o.result.Respond? <==>
            given && isNew && ext.isEmail(email) && |password| >= 6 && password == passwordConfirm && delivered)
      && (o.result.Respond? ==>
            && newId !in t.users
            && o.tables == t.(users := t.users[newId := NewAccount(name, email, ext.bcryptHash(password),
                                                                   otp, now + OtpLifetime, now)])
            && o.result == Respond(201, NewUser(newId, name, email), KeepCookie)
            && TablesValid(o.tables, newId + 1))
      && (!o.result.Respond? ==> o.tables == t && o.result.Fail?)
  {
    var o := SignupSpec(t, newId, name, email, password, passwordConfirm, ext, now, otp, delivered);
    if o.result.Respond? {
      var a := NewAccount(name, email, ext.bcryptHash(password), otp, now + OtpLifetime, now);
      assert newId !in t.users;
      InsertAccountValid(t, newId + 1, newId, a);
    }
  }

  // ================================================================ login

  /** `POST /login`. */
  function LoginSpec(t: Tables, email: string, password: string, ext: Externals, now: int): Outcome
    requires EmailsUnique(t.users)
  {
    if email == "" || password == "" then Outcome(t, Reject(AllFieldsRequired, 400), Unconnected)
    else
      match UserByEmail(t.users, email)
      case None => Outcome(t, Reject(NoSuchEmail, 401), InTxn)
      case Some(id) =>
        var a := t.users[id];
        if !a.isActive then Outcome(t, Reject(NotActive, 401), InTxn)
        else if !a.isEmailVerified then Outcome(t, Reject(NotVerified, 401), InTxn)
        else if !ext.bcryptCompare(password, a.passwordHash) then Outcome(t, Reject(WrongPassword, 401), InTxn)
        else
          var jwt := ext.signToken(id, now);
          Outcome(t, Respond(200, LoggedIn(jwt, id, a.name, email), SetJwt(jwt)), Released)
  }

  method Login(db: Database, req: Request, email: string, password: string, ext: Externals, now: int)
    returns (r: HandlerResult)
    requires db.Idle()
    modifies db, req
    ensures db.Valid() && req.user == old(req.user)
    ensures var o := LoginSpec(old(db.tables), email, password, ext, now);
      && r == o.result && db.tables == o.tables
      && Left(o.reach, old(db.tables), old(db.nextLease), old(req.pgClient), req.pgClient, db.leased, db.txn)
  {
    if email == "" || password == "" {
      return Reject(AllFieldsRequired, 400);
    }
    var client := db.Connect();
    req.pgClient := Some(client);
    db.Begin(client);

    var found := UserByEmail(db.tables.users, email);
    if found.None? {
      return Reject(NoSuchEmail, 401);
    }
    var id := found.value;
    var row := db.tables.users[id];
    if !row.isActive {
      return Reject(NotActive, 401);
    }
    if !row.isEmailVerified {
      return Reject(NotVerified, 401);
    }
    var isMatch := ext.bcryptCompare(password, row.passwordHash);
    if !isMatch {
      return Reject(WrongPassword, 401);
    }

    var jwt := ext.signToken(id, now);
    db.Commit(client);
    var released := db.Release(client);
    r := Respond(200, LoggedIn(jwt, id, row.name, email), SetJwt(jwt));
  }

  /** Login succeeds exactly for an active, verified account whose stored hash
      matches the password; it issues a token for that account, sets it as
      the `jwt` cookie, and never writes. A missing field is a 400 before
      any client is taken; an unknown email, an inactive account, an
      unverified one and a wrong password are each a 401 with its own
      message, tried in that order. */
  lemma LoginSucceedsIff(t: Tables, email: string, password: string, ext: Externals, now: int)
    requires EmailsUnique(t.users)
    ensures var o := LoginSpec(t, email, password, ext, now);
      && o.tables == t
      && (email == "" || password == "" ==> o.result == Reject(AllFieldsRequired, 400) && o.reach == Unconnected)
      && (email != "" && password != "" && (forall id :: id in t.users ==> t.users[id].email != email) ==>
            o.result == Reject(NoSuchEmail, 401))
      && (forall id :: id in t.users && t.users[id].email == email && email != "" && password != "" ==>
            var a := t.users[id];
            && (!a.isActive ==> o.result == Reject(NotActive, 401))
            && (a.isActive && !a.isEmailVerified ==> o.result == Reject(NotVerified, 401))
            && (a.isActive && a.isEmailVerified && !ext.bcryptCompare(password, a.passwordHash) ==>
                  o.result == Reject(WrongPassword, 401)))
      && (o.result.Respond? <==>
            email != "" && password != "" &&
            exists id :: id in t.users && t.users[id].email == email && t.users[id].isActive
                         && t.users[id].isEmailVerified && ext.bcryptCompare(password, t.users[id].passwordHash))
      && (o.result.Respond? ==>
            exists id :: id in t.users && t.users[id].email == email &&
              o.result == Respond(200, LoggedIn(ext.signToken(id, now), id, t.users[id].name, email),
                                  SetJwt(ext.signToken(id, now))))
    ensures NoSuchEmail != NotActive && NoSuchEmail != NotVerified && NoSuchEmail != WrongPassword
    ensures NotActive != NotVerified && NotActive != WrongPassword && NotVerified != WrongPassword
  {
    var o := LoginSpec(t, email, password, ext, now);
    if email != "" && password != "" {
      var found := UserByEmail(t.users, email);
      if found.Some? {
        var id := found.value;
        if o.result.Respond? {
          assert id in t.users && t.users[id].email == email;
        }
      }
      forall id | id in t.users && t.users[id].email == email
        ensures LoginSpec(t, email, password, ext, now).result == o.result
      {
        UserByEmailFinds(t.users, email, id);
      }
    }
    assert |NoSuchEmail| == 41 && |NotActive| == 37 && |NotVerified| == 45 && |WrongPassword| == 49;
  }

  // ================================================================ verify-email

  /** `POST /verify-email`. */
  function VerifySpec(t: Tables, email: string, candidateOtp: string, now: int): Outcome
    requires EmailsUnique(t.users)
  {
    if email == "" || candidateOtp == "" then Outcome(t, Reject(AllFieldsRequired, 400), Unconnected)
    else
      match UserByEmail(t.users, email)
      case None => Outcome(t, Reject(BadOtp, 400), InTxn)
      case Some(id) =>
        var a := t.users[id];
        if a.otp != Some(candidateOtp) then Outcome(t, Reject(BadOtp, 400), InTxn)
        else
          match a.otpExpiresAt
          case None => Outcome(t, Fail(NullExpiry), InTxn)
          case Some(expires) =>
            if now > expires then Outcome(t, Reject(BadOtp, 400), InTxn)
            else
              var verified := a.(otp := None, otpExpiresAt := None, isEmailVerified := true);
              Outcome(t.(users := t.users[id := verified]), Respond(200, Message(EmailVerified), KeepCookie), Released)
  }

  method VerifyEmail(db: Database, req: Request, email: string, candidateOtp: string, now: int)
    returns (r: HandlerResult)
    requires db.Idle()
    modifies db, req
    ensures db.Valid() && req.user == old(req.user)
    ensures var o := VerifySpec(old(db.tables), email, candidateOtp, now);
      && r == o.result && db.tables == o.tables
      && Left(o.reach, old(db.tables), old(db.nextLease), old(req.pgClient), req.pgClient, db.leased, db.txn)
  {
    if email == "" || candidateOtp == "" {
      return Reject(AllFieldsRequired, 400);
    }
    var client := db.Connect();
    req.pgClient := Some(client);
    db.Begin(client);

    var found := UserByEmail(db.tables.users, email);
    if found.None? {
      return Reject(BadOtp, 400);
    }
    var id := found.value;
    var row := db.tables.users[id];
    if row.otp != Some(candidateOtp) {
      return Reject(BadOtp, 400);
    }
    if row.otpExpiresAt.None? {
      return Fail(NullExpiry);
    }
    if now > row.otpExpiresAt.value {
      return Reject(BadOtp, 400);
    }

    var verified := row.(otp := None, otpExpiresAt := None, isEmailVerified := true);
    ReplaceAccountValid(db.tables, db.nextId, id, verified);
    db.Store(db.tables.(users := db.tables.users[id := verified]));
    db.Commit(client);
    var released := db.Release(client);
    r := Respond(200, Message(EmailVerified), KeepCookie);
  }

  /** Verification succeeds exactly when the account's code is the one given
      and has not expired; it then marks the account verified and clears the
      code, changing nothing else. On valid tables the NULL-expiry TypeError
      cannot happen, because a code is never stored without its expiry. */
  lemma VerifySucceedsIff(t: Tables, next: nat, email: string, candidateOtp: string, now: int)
    requires TablesValid(t, next)
    ensures var o := VerifySpec(t, email, candidateOtp, now);
      && o.result != Fail(NullExpiry)
      && (o.result.Respond? <==>
            email != "" && candidateOtp != "" &&
            exists id :: id in t.users && t.users[id].email == email && t.users[id].otp == Some(candidateOtp)
                         && t.users[id].otpExpiresAt.Some? && now <= t.users[id].otpExpiresAt.value)
      && (o.result.Respond? ==>
            exists id :: id in t.users && t.users[id].email == email &&
              o.tables == t.(users := t.users[id := t.users[id].(otp := None, otpExpiresAt := None,
                                                                 isEmailVerified := true)]))
      && (!o.result.Respond? ==> o.tables == t)
      && TablesValid(o.tables, next)
  {
    var o := VerifySpec(t, email, candidateOtp, now);
    if email != "" && candidateOtp != "" {
      var found := UserByEmail(t.users, email);
      if found.Some? {
        var id := found.value;
        assert Paired(t.users[id]);
        if o.result.Respond? {
          ReplaceAccountValid(t, next, id, t.users[id].(otp := None, otpExpiresAt := None, isEmailVerified := true));
        }
      }
    }
  }

  /** A code works once: after a successful verification the same request,
      or any other code, is refused. */
  lemma VerifyIsOneShot(t: Tables, next: nat, email: string, candidateOtp: string, now: int,
                        anyOtp: string, later: int)
    requires TablesValid(t, next)
    requires VerifySpec(t, email, candidateOtp, now).result.Respond?
    ensures var t2 := VerifySpec(t, email, candidateOtp, now).tables;
      EmailsUnique(t2.users) && VerifySpec(t2, email, anyOtp, later).result.Fail?
  {
    VerifySucceedsIff(t, next, email, candidateOtp, now);
    var t2 := VerifySpec(t, email, candidateOtp, now).tables;
    var id := UserByEmail(t.users, email).value;
    UserByEmailFinds(t2.users, email, id);
  }

  // ================================================================ resend-otp

  /** `POST /resend-otp`. */
  function ResendSpec(t: Tables, email: string, now: int, otp: string, delivered: bool): Outcome
    requires EmailsUnique(t.users)
  {
    if email == "" then Outcome(t, Reject(EmailRequired, 400), Unconnected)
    else
      match UserByEmail(t.users, email)
      case None => Outcome(t, Reject(Unregistered, 400), InTxn)
      case Some(id) =>
        var a := t.users[id];
        if a.isEmailVerified then Outcome(t, Reject(AlreadyVerified, 400), InTxn)
        else if !delivered then Outcome(t, Reject(ResendFailed, 500), Held)
        else
          var renewed := a.(otp := Some(otp), otpExpiresAt := Some(now + OtpLifetime));
          Outcome(t.(users := t.users[id := renewed]), Respond(201, Message(OtpSent), KeepCookie), Released)
  }

  method ResendOtp(db: Database, req: Request, email: string, now: int, otp: string, delivered: bool)
    returns (r: HandlerResult)
    requires db.Idle()
    modifies db, req
    ensures db.Valid() && req.user == old(req.user)
    ensures var o := ResendSpec(old(db.tables), email, now, otp, delivered);
      && r == o.result && db.tables == o.tables
      && Left(o.reach, old(db.tables), old(db.nextLease), old(req.pgClient), req.pgClient, db.leased, db.txn)
  {
    if email == "" {
      return Reject(EmailRequired, 400);
    }
    var client := db.Connect();
    req.pgClient := Some(client);
    db.Begin(client);

    var found := UserByEmail(db.tables.users, email);
    if found.None? {
      return Reject(Unregistered, 400);
    }
    var id := found.value;
    var row := db.tables.users[id];
    if row.isEmailVerified {
      return Reject(AlreadyVerified, 400);
    }

    // UPDATE ... WHERE id = $3 AND email = $4: the row just read.
    var renewed := row.(otp := Some(otp), otpExpiresAt := Some(now + OtpLifetime));
    ReplaceAccountValid(db.tables, db.nextId, id, renewed);
    db.Store(db.tables.(users := db.tables.users[id := renewed]));

    if !delivered {
      db.Rollback(client);
      return Reject(ResendFailed, 500);
    }
    db.Commit(client);
    var released := db.Release(client);
    r := Respond(201, Message(OtpSent), KeepCookie);
  }

  /** A resend replaces the unverified account's code by the new one, valid
      for 15 minutes from now, changes no other row and no other column, and
      that code then verifies the account while it is valid. A missing
      email, an unknown one and a verified account are each refused with a
      400, a failed delivery with a 500, and every refusal leaves the tables
      as they were. */
  lemma ResendReplacesOtp(t: Tables, next: nat, email: string, now: int, otp: string, delivered: bool,
                          later: int)
    requires TablesValid(t, next)
    ensures var o := ResendSpec(t, email, now, otp, delivered);
      && (email == "" ==> o == Outcome(t, Reject(EmailRequired, 400), Unconnected))
      && (email != "" && (forall id :: id in t.users ==> t.users[id].email != email) ==>
            o.result == Reject(Unregistered, 400))
      && (forall id :: id in t.users && t.users[id].email == email && email != "" ==>
            && (t.users[id].isEmailVerified ==> o.result == Reject(AlreadyVerified, 400))
            && (!t.users[id].isEmailVerified && !delivered ==> o.result == Reject(ResendFailed, 500))
            && (!t.users[id].isEmailVerified && delivered ==>
                  && o.result == Respond(201, Message(OtpSent), KeepCookie)
                  && o.tables.users.Keys == t.users.Keys
                  && o.tables.users[id] == t.users[id].(otp := Some(otp), otpExpiresAt := Some(now + OtpLifetime))
                  && (forall j :: j in t.users && j != id ==> o.tables.users[j] == t.users[j])
                  && o.tables == t.(users := o.tables.users)))
      && (o.result.Respond? <==>
            email != "" && delivered &&
            exists id :: id in t.users && t.users[id].email == email && !t.users[id].isEmailVerified)
      && (o.result.Respond? ==>
            && TablesValid(o.tables, next)
            && (otp != "" && now <= later <= now + OtpLifetime ==> VerifySpec(o.tables, email, otp, later).result.Respond?))
      && (!o.result.Respond? ==> o.tables == t)
  {
    var o := ResendSpec(t, email, now, otp, delivered);
    if email != "" {
      var found := UserByEmail(t.users, email);
      if found.Some? {
        var id := found.value;
        var renewed := t.users[id].(otp := Some(otp), otpExpiresAt := Some(now + OtpLifetime));
        if !t.users[id].isEmailVerified && delivered {
          ReplaceAccountValid(t, next, id, renewed);
          UserByEmailFinds(o.tables.users, email, id);
        }
      }
      forall id | id in t.users && t.users[id].email == email
        ensures UserByEmail(t.users, email) == Some(id)
      {
        UserByEmailFinds(t.users, email, id);
      }
    }
  }

  // ================================================================ forgot-password

  /** The reset columns as forgotPassword's UPDATE sets them. */
  function WithResetToken(hash: string, expires: int): Account -> Account
  {
    (a: Account) => a.(passwordResetToken := Some(hash), passwordResetTokenExpiresAt := Some(expires))
  }

  /** `POST /forgot-password`. The UPDATE has no WHERE clause, so it writes
      every row; when the e-mail fails the handler rolls back and still
      answers 200. */
  function ForgotSpec(t: Tables, email: string, ext: Externals, now: int, rawToken: string,
                      delivered: bool): Outcome
    requires EmailsUnique(t.users)
  {
    if email == "" then Outcome(t, Reject(EmailRequired, 400), Unconnected)
    else if UserByEmail(t.users, email).None? then Outcome(t, Reject(Unregistered, 400), InTxn)
    else
      var written := t.(users := UpdateAll(t.users, WithResetToken(ext.sha256(rawToken), now + OtpLifetime)));
      Outcome(if delivered then written else t, Respond(200, Message(ResetSent), KeepCookie), Released)
  }

  method ForgotPassword(db: Database, req: Request, email: string, ext: Externals, now: int,
                        rawToken: string, delivered: bool)
    returns (r: HandlerResult)
    requires db.Idle()
    modifies db, req
    ensures db.Valid() && req.user == old(req.user)
    ensures var o := ForgotSpec(old(db.tables), email, ext, now, rawToken, delivered);
      && r == o.result && db.tables == o.tables
      && Left(o.reach, old(db.tables), old(db.nextLease), old(req.pgClient), req.pgClient, db.leased, db.txn)
  {
    if email == "" {
      return Reject(EmailRequired, 400);
    }
    var client := db.Connect();
    req.pgClient := Some(client);
    db.Begin(client);

    var found := UserByEmail(db.tables.users, email);
    if found.None? {
      return Reject(Unregistered, 400);
    }

    var encryptedToken := ext.sha256(rawToken);
    var update := WithResetToken(encryptedToken, now + OtpLifetime);
    UpdateAllValid(db.tables, db.nextId, update);
    db.Store(db.tables.(users := UpdateAll(db.tables.users, update)));

    if !delivered {
      db.Rollback(client);
    }
    db.Commit(client);
    var released := db.Release(client);
    r := Respond(200, Message(ResetSent), KeepCookie);
  }

  /** For a registered email the answer is 200 whether or not the e-mail
      went out. When it did, every account, not only the one asking,
      now holds the SHA-256 of the same raw token, expiring in 15 minutes;
      the raw token itself is stored nowhere. */
  lemma ForgotPasswordWritesEveryRow(t: Tables, next: nat, email: string, ext: Externals, now: int,
                                     rawToken: string, delivered: bool)
    requires TablesValid(t, next) && email != ""
    requires exists id :: id in t.users && t.users[id].email == email
    ensures var o := ForgotSpec(t, email, ext, now, rawToken, delivered);
      && o.result == Respond(200, Message(ResetSent), KeepCookie)
      && TablesValid(o.tables, next)
      && o.tables.users.Keys == t.users.Keys
      && (!delivered ==> o.tables == t)
      && (delivered ==> forall id :: id in t.users ==>
            && o.tables.users[id].passwordResetToken == Some(ext.sha256(rawToken))
            && o.tables.users[id].passwordResetTokenExpiresAt == Some(now + OtpLifetime)
            && o.tables.users[id].(passwordResetToken := t.users[id].passwordResetToken,
                                   passwordResetTokenExpiresAt := t.users[id].passwordResetTokenExpiresAt)
               == t.users[id])
  {
    UpdateAllValid(t, next, WithResetToken(ext.sha256(rawToken), now + OtpLifetime));
  }

  // ================================================================ reset-password

  /** `SELECT * FROM users WHERE email = $1 AND passwordResetToken = $2`. */
  function ResetRow(users: map<UserId, Account>, email: string, hash: string): (r: Option<UserId>)
    requires EmailsUnique(users)
    ensures r.Some? ==> r.value in users && users[r.value].email == email
                        && users[r.value].passwordResetToken == Some(hash)
    ensures r.None? ==> forall id :: id in users && users[id].email == email ==>
                          users[id].passwordResetToken != Some(hash)
  {
    match UserByEmail(users, email)
    case Some(id) => if users[id].passwordResetToken == Some(hash) then Some(id) else None
    case None => None
  }

  /** The reset is refused when the token differs or has expired; a token
      stored without an expiry never expires. */
  predicate ResetRefused(a: Account, hash: string, now: int)
  {
    a.passwordResetToken != Some(hash)
    || (a.passwordResetTokenExpiresAt.Some? && now > a.passwordResetTokenExpiresAt.value)
  }

  /** `PATCH /reset-password/:resetToken`. */
  function ResetSpec(t: Tables, rawToken: string, email: string, newPassword: string,
                     newPasswordConfirm: string, ext: Externals, now: int): Outcome
    requires EmailsUnique(t.users)
  {
    if email == "" || newPassword == "" || newPasswordConfirm == "" then
      Outcome(t, Reject(ResetFieldsRequired, 400), Unconnected)
    else if newPassword != newPasswordConfirm then Outcome(t, Reject(PasswordsDiffer, 400), Unconnected)
    else
      var hash := ext.sha256(rawToken);
      match ResetRow(t.users, email, hash)
      case None => Outcome(t, Reject(NoResetRow, 400), InTxn)
      case Some(id) =>
        var a := t.users[id];
        if ResetRefused(a, hash, now) then Outcome(t, Reject(ResetRejected, 400), InTxn)
        else
          var reset := a.(passwordResetToken := None, passwordResetTokenExpiresAt := None,
                          passwordHash := ext.bcryptHash(newPassword));
          Outcome(t.(users := t.users[id := reset]), Respond(200, Message(PasswordReset), KeepCookie), Released)
  }

  method ResetPassword(db: Database, req: Request, rawToken: string, email: string, newPassword: string,
                       newPasswordConfirm: string, ext: Externals, now: int)
    returns (r: HandlerResult)
    requires db.Idle()
    modifies db, req
    ensures db.Valid() && req.user == old(req.user)
    ensures var o := ResetSpec(old(db.tables), rawToken, email, newPassword, newPasswordConfirm, ext, now);
      && r == o.result && db.tables == o.tables
      && Left(o.reach, old(db.tables), old(db.nextLease), old(req.pgClient), req.pgClient, db.leased, db.txn)
  {
    if email == "" || newPassword == "" || newPasswordConfirm == "" {
      return Reject(ResetFieldsRequired, 400);
    }
    if newPassword != newPasswordConfirm {
      return Reject(PasswordsDiffer, 400);
    }
    var encryptedToken := ext.sha256(rawToken);
    var client := db.Connect();
    req.pgClient := Some(client);
    db.Begin(client);

    var found := ResetRow(db.tables.users, email, encryptedToken);
    if found.None? {
      return Reject(NoResetRow, 400);
    }
    var id := found.value;
    var row := db.tables.users[id];
    if ResetRefused(row, encryptedToken, now) {
      return Reject(ResetRejected, 400);
    }

    var hashedPassword := ext.bcryptHash(newPassword);
    // UPDATE ... WHERE id = $4 AND email = $5 RETURNING ...: the row just read.
    var reset := row.(passwordResetToken := None, passwordResetTokenExpiresAt := None,
                      passwordHash := hashedPassword);
    ReplaceAccountValid(db.tables, db.nextId, id, reset);
    db.Store(db.tables.(users := db.tables.users[id := reset]));

    db.Commit(client);
    var released := db.Release(client);
    r := Respond(200, Message(PasswordReset), KeepCookie);
  }

  /** A reset succeeds exactly when every field is given, the two passwords
      agree and the account with that email holds the hash of the token and
      the token has not expired; it then stores the new password's hash and
      clears the token, and leaves every other column, passwordChangedAt
      included, and every other account alone. A missing field and a
      mismatched confirmation are 400s before any client is taken; no row
      with that email and token, and an expired token, are 400s after the
      lookup; no refusal writes anything. */
  lemma ResetSucceedsIff(t: Tables, next: nat, rawToken: string, email: string, newPassword: string,
                         newPasswordConfirm: string, ext: Externals, now: int)
    requires TablesValid(t, next)
    ensures var o := ResetSpec(t, rawToken, email, newPassword, newPasswordConfirm, ext, now);
      var given := email != "" && newPassword != "" && newPasswordConfirm != "";
      var hash := ext.sha256(rawToken);
      && (!given ==> o == Outcome(t, Reject(ResetFieldsRequired, 400), Unconnected))
      && (given && newPassword != newPasswordConfirm ==> o == Outcome(t, Reject(PasswordsDiffer, 400), Unconnected))
      && (given && newPassword == newPasswordConfirm &&
          (forall id :: id in t.users && t.users[id].email == email ==> t.users[id].passwordResetToken != Some(hash)) ==>
            o.result == Reject(NoResetRow, 400))
      && (given && newPassword == newPasswordConfirm &&
          (exists id :: id in t.users && t.users[id].email == email && t.users[id].passwordResetToken == Some(hash)
                        && ResetRefused(t.users[id], hash, now)) ==>
            o.result == Reject(ResetRejected, 400))
      && (o.result.Respond? <==>
            given && newPassword == newPasswordConfirm &&
            exists id :: id in t.users && t.users[id].email == email && !ResetRefused(t.users[id], hash, now))
      && (o.result.Respond? ==>
            && o.result == Respond(200, Message(PasswordReset), KeepCookie)
            && exists id :: id in t.users && t.users[id].email == email &&
                 o.tables == t.(users := t.users[id := t.users[id].(passwordResetToken := None,
                                   passwordResetTokenExpiresAt := None,
                                   passwordHash := ext.bcryptHash(newPassword))]))
      && (!o.result.Respond? ==> o.tables == t && o.result.Fail? && o.result.error.statusCode == 400)
      && TablesValid(o.tables, next)
  {
    var o := ResetSpec(t, rawToken, email, newPassword, newPasswordConfirm, ext, now);
    var hash := ext.sha256(rawToken);
    var found := UserByEmail(t.users, email);
    if found.Some? {
      var id := found.value;
      var a := t.users[id];
      forall j | j in t.users && t.users[j].email == email
        ensures j == id
      {
        UserByEmailFinds(t.users, email, j);
      }
      if !ResetRefused(a, hash, now) && email != "" && newPassword != "" && newPassword == newPasswordConfirm {
        assert ResetRow(t.users, email, hash) == Some(id);
        ReplaceAccountValid(t, next, id, a.(passwordResetToken := None, passwordResetTokenExpiresAt := None,
                                            passwordHash := ext.bcryptHash(newPassword)));
      }
    }
  }

  /** A reset token works once. */
  lemma ResetIsOneShot(t: Tables, next: nat, rawToken: string, email: string, newPassword: string,
                       ext: Externals, now: int, otherPassword: string, later: int)
    requires TablesValid(t, next) && email != "" && newPassword != ""
    requires ResetSpec(t, rawToken, email, newPassword, newPassword, ext, now).result.Respond?
    ensures var t2 := ResetSpec(t, rawToken, email, newPassword, newPassword, ext, now).tables;
      EmailsUnique(t2.users) && ResetSpec(t2, rawToken, email, otherPassword, otherPassword, ext, later).result.Fail?
  {
    ResetSucceedsIff(t, next, rawToken, email, newPassword, newPassword, ext, now);
    var t2 := ResetSpec(t, rawToken, email, newPassword, newPassword, ext, now).tables;
    var id := UserByEmail(t.users, email).value;
    UserByEmailFinds(t2.users, email, id);
  }

  /** Because forgotPassword writes the token into every row, one reset
      link, used within 15 minutes, sets a new password on ANY registered
      account when the link's user types that account's email. */
  lemma ForgotThenResetAnyAccount(t: Tables, next: nat, requester: string, victim: string,
                                  ext: Externals, now: int, rawToken: string, newPassword: string,
                                  later: int)
    requires TablesValid(t, next) && requester != "" && victim != "" && newPassword != ""
    requires exists id :: id in t.users && t.users[id].email == requester
    requires exists id :: id in t.users && t.users[id].email == victim
    requires later <= now + OtpLifetime
    ensures var t2 := ForgotSpec(t, requester, ext, now, rawToken, true).tables;
      EmailsUnique(t2.users) && ResetSpec(t2, rawToken, victim, newPassword, newPassword, ext, later).result.Respond?
  {
    ForgotPasswordWritesEveryRow(t, next, requester, ext, now, rawToken, true);
    var t2 := ForgotSpec(t, requester, ext, now, rawToken, true).tables;
    var id :| id in t.users && t.users[id].email == victim;
    assert t2.users[id].email == victim;
    ResetSucceedsIff(t2, next, rawToken, victim, newPassword, newPassword, ext, later);
  }

  // ================================================================ protectRoute

  /** The token protectRoute reads, "" when there is none: the second
      space-separated word of an `Authorization` header that starts with
      "Bearer", else the `jwt` cookie. "" also stands for an absent header
      or cookie. */
  function ExtractToken(authorization: string, cookie: string): string
  {
    if authorization != "" && StartsWith(authorization, "Bearer") then
      var words := Split(authorization, ' ');
      if |words| >= 2 then words[1] else ""
    else cookie
  }

  /** `passwordchangedat && Date.parse(passwordchangedat) > decoded.iat * 1000`.
      `Date.parse` reads the date's text form, which has whole seconds, so
      the milliseconds are dropped first. */
  predicate IsStale(passwordChangedAt: Option<int>, iat: int)
  {
    passwordChangedAt.Some? && (passwordChangedAt.value / 1000) * 1000 > iat * 1000
  }

  /** What protectRoute decides, and the `req.user` it sets. */
  datatype Guarded = Guarded(result: HandlerResult, user: Option<Identity>, reach: Reach)

  function ProtectSpec(t: Tables, authorization: string, cookie: string, ext: Externals, now: int): Guarded
  {
    var token := ExtractToken(authorization, cookie);
    if token == "" then Guarded(Reject(TokenNotFound, 401), None, Unconnected)
    else
      match ext.verifyToken(token, now)
      case Rejected(name, message) => Guarded(Fail(RuntimeError(name, message)), None, InTxn)
      case Decoded(id, iat) =>
        if id !in t.users then Guarded(Reject(UserGone, 401), None, InTxn)
        else
          var a := t.users[id];
          if IsStale(a.passwordChangedAt, iat) then Guarded(Reject(PasswordChanged, 401), None, InTxn)
          else Guarded(Pass, Some(Identity(id, a.name, a.email, a.role)), Released)
  }

  method ProtectRoute(db: Database, req: Request, authorization: string, cookie: string,
                      ext: Externals, now: int)
    returns (r: HandlerResult)
    requires db.Idle()
    modifies db, req
    ensures db.Valid() && db.tables == old(db.tables) && db.nextId == old(db.nextId)
    ensures var g := ProtectSpec(old(db.tables), authorization, cookie, ext, now);
      && r == g.result
      && db.nextLease == (if g.reach == Unconnected then old(db.nextLease) else old(db.nextLease) + 1)
      && req.user == (if g.user.Some? then g.user else old(req.user))
      && Left(g.reach, old(db.tables), old(db.nextLease), old(req.pgClient), req.pgClient, db.leased, db.txn)
  {
    var token := "";
    if authorization != "" && StartsWith(authorization, "Bearer") {
      var words := Split(authorization, ' ');
      if |words| >= 2 {
        token := words[1];
      }
    } else if cookie != "" {
      token := cookie;
    }
    if token == "" {
      return Reject(TokenNotFound, 401);
    }

    var client := db.Connect();
    req.pgClient := Some(client);
    db.Begin(client);

    var decoded := ext.verifyToken(token, now);
    if decoded.Rejected? {
      return Fail(RuntimeError(decoded.name, decoded.message));
    }
    if decoded.id !in db.tables.users {
      return Reject(UserGone, 401);
    }
    var row := db.tables.users[decoded.id];
    if IsStale(row.passwordChangedAt, decoded.iat) {
      return Reject(PasswordChanged, 401);
    }

    req.user := Some(Identity(decoded.id, row.name, row.email, row.role));
    db.Commit(client);
    var released := db.Release(client);
    r := Pass;
  }

  /** The header wins over the cookie: a Bearer header gives its second word
      even when a cookie is present, and a header that starts with "Bearer"
      but has no second word gives no token at all. Without such a header
      the cookie is used. */
  lemma ExtractTokenPrecedence(token: string, cookie: string, other: string)
    requires token != "" && ' ' !in token
    ensures ExtractToken("Bearer " + token, cookie) == token
    ensures ExtractToken("Bearer", cookie) == ""
    ensures !StartsWith(other, "Bearer") ==> ExtractToken(other, cookie) == cookie
  {
    assert "Bearer " + token == "Bearer" + [' '] + token;
    SplitAtFirst("Bearer", ' ', token);
    SplitWithoutSeparator(token, ' ');
    SplitWithoutSeparator("Bearer", ' ');
  }

  /** A token is stale exactly when the password changed in a later second
      than the token was issued; a change within the same second as the
      issue, or with no change recorded, keeps the token valid. */
  lemma StaleIff(passwordChangedAt: Option<int>, iat: int)
    ensures IsStale(passwordChangedAt, iat) <==>
              passwordChangedAt.Some? && passwordChangedAt.value / 1000 > iat
  {
    if passwordChangedAt.Some? {
      var s := passwordChangedAt.value / 1000;
      assert s * 1000 > iat * 1000 <==> s > iat;
    }
  }

  /** protectRoute lets a request through exactly when it carries a token,
      the token verifies to an existing account, and the password has not
      changed since; `req.user` is then that account's id, name, email and
      role. Whether the account is active is NOT checked, so a deactivated
      account's token still passes. No token is a 401 before any client is
      taken; a token the library rejects is passed on as the library's own
      error; a vanished account and a stale password are each a 401. */
  lemma ProtectSucceedsIff(t: Tables, authorization: string, cookie: string, ext: Externals, now: int)
    ensures var g := ProtectSpec(t, authorization, cookie, ext, now);
      var token := ExtractToken(authorization, cookie);
      var v := ext.verifyToken(token, now);
      && (token == "" ==> g == Guarded(Reject(TokenNotFound, 401), None, Unconnected))
      && (token != "" && v.Rejected? ==> g.result == Fail(RuntimeError(v.name, v.message)))
      && (token != "" && v.Decoded? && v.id !in t.users ==> g.result == Reject(UserGone, 401))
      && (token != "" && v.Decoded? && v.id in t.users && IsStale(t.users[v.id].passwordChangedAt, v.iat) ==>
            g.result == Reject(PasswordChanged, 401))
      && (g.result.Pass? <==>
            && token != "" && v.Decoded? && v.id in t.users
            && !IsStale(t.users[v.id].passwordChangedAt, v.iat))
      && (g.result.Pass? ==>
            g.user == Some(Identity(v.id, t.users[v.id].name, t.users[v.id].email, t.users[v.id].role)))
      && (!g.result.Pass? ==> g.user.None? && g.result.Fail?)
  {
  }

  /** No handler here writes passwordChangedAt, so a token issued before a
      password reset keeps passing protectRoute afterwards. */
  lemma TokenSurvivesReset(t: Tables, next: nat, rawToken: string, email: string, newPassword: string,
                           ext: Externals, now: int, authorization: string, cookie: string, later: int)
    requires TablesValid(t, next) && email != "" && newPassword != ""
    requires ProtectSpec(t, authorization, cookie, ext, later).result.Pass?
    ensures var t2 := ResetSpec(t, rawToken, email, newPassword, newPassword, ext, now).tables;
      ProtectSpec(t2, authorization, cookie, ext, later).result.Pass?
  {
    ResetSucceedsIff(t, next, rawToken, email, newPassword, newPassword, ext, now);
  }

  // ================================================================ restrictTo

  /** `restrictTo(...roles)`: passes when `req.user`'s role is listed;
      otherwise it clears `req.pgClient` (so that the error handler does not
      release protectRoute's client a second time) and fails with 403. */
  method RestrictTo(roles: seq<Role>, req: Request) returns (r: HandlerResult)
    modifies req
    ensures req.user == old(req.user)
    ensures old(req.user).None? ==> r == Fail(NoUser) && req.pgClient == old(req.pgClient)
    ensures old(req.user).Some? ==>
              && (r.Pass? <==> old(req.user).value.role in roles)
              && (r.Pass? ==> req.pgClient == old(req.pgClient))
              && (!r.Pass? ==> r == Reject(Forbidden, 403) && req.pgClient.None?)
  {
    if req.user.None? {
      return Fail(NoUser);
    }
    var role := req.user.value.role;
    if role !in roles {
      req.pgClient := None;
      return Reject(Forbidden, 403);
    }
    r := Pass;
  }

  // ================================================================ flows

  /** The sign-up flow: right after signing up, login is refused until the
      email is verified; verifying with the e-mailed code within 15
      minutes, and then logging in with the same password, succeeds (given
      that bcrypt matches a password with its own hash). */
  lemma SignupVerifyLogin(t: Tables, newId: UserId, name: string, email: string, password: string,
                          ext: Externals, now: int, otp: string, verifyAt: int, loginAt: int)
    requires TablesValid(t, newId)
    requires SignupSpec(t, newId, name, email, password, password, ext, now, otp, true).result.Respond?
    requires otp != "" && verifyAt <= now + OtpLifetime
    requires ext.bcryptCompare(password, ext.bcryptHash(password))
    ensures var t1 := SignupSpec(t, newId, name, email, password, password, ext, now, otp, true).tables;
      && EmailsUnique(t1.users)
      && LoginSpec(t1, email, password, ext, now).result == Reject(NotVerified, 401)
      && VerifySpec(t1, email, otp, verifyAt).result.Respond?
      && var t2 := VerifySpec(t1, email, otp, verifyAt).tables;
         EmailsUnique(t2.users) && LoginSpec(t2, email, password, ext, loginAt).result.Respond?
  {
    SignupSucceedsIff(t, newId, name, email, password, password, ext, now, otp, true);
    var t1 := SignupSpec(t, newId, name, email, password, password, ext, now, otp, true).tables;
    UserByEmailFinds(t1.users, email, newId);
    VerifySucceedsIff(t1, newId + 1, email, otp, verifyAt);
    var t2 := VerifySpec(t1, email, otp, verifyAt).tables;
    UserByEmailFinds(t2.users, email, newId);
  }
}
