# EchoPoint request handlers in Dafny

EchoPoint is an Express and PostgreSQL blogging back end. Users sign up, verify
their email with a one-time code, and log in with a JWT. They write posts and
comment on posts. Admins can look up and deactivate accounts. This project
models the core of that service:

- the auth handlers (signup, login, email verification, OTP resend, forgotten
  and reset password) and the `protectRoute` and `restrictTo` guards;
- the user, post and comment handlers;
- the query-string helpers that build SQL fragments;
- the global error middleware.

The state a request works on is modelled imperatively:

- `Runtime.Database` stands for the pool and the database behind it. It holds
  the three tables, the checked-out clients ("leases") and the one open
  transaction with its snapshot.
- `Runtime.Request` holds `req.pgClient` and `req.user`.

Each handler is a method on these two objects. Its postcondition ties what it
returns and the tables it leaves to a pure specification function
(`XxxSpec`). It also fixes, through the `Runtime.Left` predicate, where it
leaves its pool client: never taken, held, held in an open transaction,
released, or released without being recorded in `req.pgClient`.

Lemmas about the specification functions carry the properties. They cover
when a request succeeds, what it changes and what it leaves alone, that the
table constraints are preserved, one-shot codes, owner-only edits, and flows
across handlers (signup then verify then login, forgot then reset,
delete-post cascade).

`Routes` chains three routes end to end: the guards, the handler and the error
middleware. The chaining shows where the error middleware releases a
client for the second time.

Modules: `Basics` (Option, JavaScript string helpers), `Schema` (tables and
their constraints), `Http` (error objects, payloads, handler results),
`Runtime`, `ApiFeatures`, `GlobalErrorHandler`, `AuthController`,
`UserController`, `PostController`, `CommentController`, `Routes`.

Conventions of the model:

- A request-body field is a string, with `""` meaning absent or falsy.
- A route id is an `Http.IdParam`: absent, not a UUID (SQLSTATE 22P02 at
  bind time), or the id of a row. An absent id binds as NULL and matches
  nothing.
- Row ids are natural numbers handed out by a counter, standing for
  generated UUIDs.
- Times are integers in milliseconds.
- bcrypt, SHA-256, the email validator and JWT signing and verification are
  the total functions of an `AuthController.Externals` record.
- The clock, the random OTP and reset token, whether the email was
  delivered, and the rows a hand-built `SELECT` returns are parameters of
  the call.

## Model

| member | source | states |
|---|---|---|
| Basics.JoinSplitReplaces | utils/apiFeatures.js:3 | `split(",").join(", ")` replaces every comma by ", " and changes nothing else |
| Basics.ParseShowInt | utils/apiFeatures.js:31 | reading back an integer printed into the LIMIT clause gives that integer |
| Schema.UserByEmail | controllers/authController.js:104-110 | the email lookup returns the one row with that email, or none when no row has it |
| Schema.RemovePost | migrations/20250820091307_create_comments.js:14-15 | deleting a post also deletes every comment on it (ON DELETE CASCADE) and nothing else |
| Schema.DeletePostValid | migrations/20250820091307_create_comments.js:14-16 | the cascade keeps every foreign key satisfied |
| Http.AppError | controllers/authController.js:20 | an AppError is operational, has no SQL code, and has status "fail" for a 4xx code, "error" otherwise |
| Http.BadUuid | controllers/postController.js:146-148 | binding text that is not a UUID fails with SQLSTATE 22P02, a non-operational error |
| ApiFeatures.ApplyFieldLimiting | utils/apiFeatures.js:1-8 | a truthy `fields` becomes a column list with ", " between names; otherwise `*` |
| ApiFeatures.ApplySorting | utils/apiFeatures.js:10-24 | with a truthy `sort` the clause starts with "ORDER BY "; without one it is empty, and only then |
| ApiFeatures.SortingRoundTrip | utils/apiFeatures.js:10-24 | parsing the ORDER BY clause back gives, in order, each comma-separated field with DESC for a leading "-" and ASC otherwise |
| ApiFeatures.NumberOr | utils/apiFeatures.js:27-28 | `Number(x)` with a default: the parsed value when it is a nonzero integer (optional sign), else the default |
| ApiFeatures.PaginationRoundTrip | utils/apiFeatures.js:26-32 | the LIMIT clause reads back as limit = `limit` (default 3) and offset = (page - 1) * limit (page default 1) |
| ApiFeatures.ApplyFiltering | utils/apiFeatures.js:34-84 | drops limit, sort, page and fields; gives one `key op $i` filter per remaining pair in order, joined by AND under WHERE, and a value list aligned with it, numbers coerced |
| ApiFeatures.DeleteExcluded | utils/apiFeatures.js:35-38 | deleting the four control keys one after another leaves exactly the retained pairs, in order |
| ApiFeatures.FilterEach | utils/apiFeatures.js:40-84 | the loop gives one filter per pair, numbered from `$1` in order, and a value per pair coerced from its text |
| ApiFeatures.RetainedKeys | utils/apiFeatures.js:35-38 | after the deletions no control key is left, every other pair is kept, and nothing new appears |
| ApiFeatures.PlaceholdersInOrder | utils/apiFeatures.js:42-77 | the i-th filter ends with placeholder `$i+1`: placeholders are numbered from 1 in query order |
| ApiFeatures.BracketOperator | utils/apiFeatures.js:45-76 | `field[op]` becomes `field op $n`; the operator is `>=, >, <=, <, !=` exactly for gte, gt, lte, lt, ne and `=` for any other text; a plain key becomes `key = $n` |
| ApiFeatures.ClauseIgnoresValues | utils/apiFeatures.js:70-81 | the WHERE text depends only on the keys, never on the values, which are bound separately |
| ApiFeatures.Coerce | utils/apiFeatures.js:71 | a value that parses as an integer (optional sign) is bound as that number, any other value as its text |
| GlobalErrorHandler.MapCode | middlewares/globalErrorHandler.js:31-109 | every SQLSTATE maps to an operational error; 22P02 and 23502 get their own messages, the latter naming the column |
| GlobalErrorHandler.MapCodeClasses | middlewares/globalErrorHandler.js:31-109 | status 409 exactly for unique violations, 400 exactly for the client-error codes, 503 exactly for serialization and deadlock, 500 for everything else; unknown codes read "Some unknown error occurred." |
| GlobalErrorHandler.Normalised | middlewares/globalErrorHandler.js:10-11 | a missing statusCode becomes 500 and a missing status becomes "error"; nothing else changes |
| GlobalErrorHandler.Classify | middlewares/globalErrorHandler.js:13-117 | JWT error names take precedence over a SQL code, which takes precedence over the error itself |
| GlobalErrorHandler.Render | middlewares/globalErrorHandler.js:119-134 | development echoes the normalised error; production sends the classified status (500 when it is 0), the JSON `status` of the mapped AppError ("fail" for 4xx, "error" otherwise) or the error's own (default "error"), and masks non-operational messages; any other NODE_ENV sends nothing |
| GlobalErrorHandler.ProductionStatusByCode | middlewares/globalErrorHandler.js:31-134 | in production, a SQL error's status follows its code class, or is 401 for a JWT error |
| GlobalErrorHandler.ProductionMasksUnexpected | middlewares/globalErrorHandler.js:127-134 | in production, an unexpected runtime error is answered "Something went wrong" with its own or a 500 status |
| GlobalErrorHandler.Handle | middlewares/globalErrorHandler.js:7-29 | with `req.pgClient` set it rolls back that client's transaction and releases the client; releasing a client that was already released throws, and no response is sent |
| AuthController.Signup | controllers/authController.js:16-90 | the new tables and response are SignupSpec's, and the pool client ends as SignupSpec says |
| AuthController.SignupSucceedsIff | controllers/authController.js:16-90 | signup succeeds exactly when all four fields are given, the email is unused and valid, the password has at least 6 characters and matches its confirmation, and the OTP email was delivered; it inserts exactly the new unverified row with a 15-minute OTP; the refusals in order are a missing field (400, no client taken), a registered email, a malformed email, a short password and a mismatch (400 each, client held) and a failed delivery (500); failures change nothing |
| AuthController.Login | controllers/authController.js:92-164 | the tables and response are LoginSpec's |
| AuthController.LoginSucceedsIff | controllers/authController.js:92-164 | login succeeds exactly when the account exists, is active, is verified and the password matches; the token and cookie are signed for that account; a missing field is a 400 before connecting; an unknown email, an inactive account, an unverified one and a wrong password are 401s with four distinct messages, in that order; nothing is written |
| AuthController.VerifyEmail | controllers/authController.js:166-203 | the tables and response are VerifySpec's |
| AuthController.VerifySucceedsIff | controllers/authController.js:166-203 | verification succeeds exactly for the stored, unexpired OTP of that email; it marks the row verified and clears the OTP; the null-expiry TypeError cannot arise on valid tables |
| AuthController.VerifyIsOneShot | controllers/authController.js:191-195 | after a successful verification every further verification of that email fails |
| AuthController.ResendOtp | controllers/authController.js:205-265 | the tables and response are ResendSpec's |
| AuthController.ResendReplacesOtp | controllers/authController.js:205-265 | a resend succeeds exactly for a registered, unverified email whose mail goes out; it replaces only that row's code and expiry (now + 15 minutes) and the new code then verifies within 15 minutes; a missing, unknown or verified email is a 400, a failed delivery a 500, and no refusal writes |
| AuthController.ForgotPassword | controllers/authController.js:267-327 | the tables and response are ForgotSpec's |
| AuthController.ForgotPasswordWritesEveryRow | controllers/authController.js:294-300 | for a registered email the reply is 200; when the email went out, the UPDATE without WHERE gives every account the same reset token hash and expiry and changes nothing else |
| AuthController.ResetPassword | controllers/authController.js:329-389 | the tables and response are ResetSpec's |
| AuthController.ResetSucceedsIff | controllers/authController.js:329-389 | a reset succeeds exactly when all fields are given, the passwords agree and that email's row holds the token's hash unexpired; it installs the new hash, clears the token, and changes nothing else; a missing field and a mismatch are 400s before connecting, no matching row and an expired token are 400s after the lookup; no refusal writes |
| AuthController.ResetIsOneShot | controllers/authController.js:371-376 | a used reset token fails when presented again |
| AuthController.ForgotThenResetAnyAccount | controllers/authController.js:294-300 | a token mailed to one account resets any other account's password |
| AuthController.ProtectRoute | controllers/authController.js:392-442 | decides as ProtectSpec does, sets `req.user` only on success, and leaves the tables unchanged |
| AuthController.ExtractTokenPrecedence | controllers/authController.js:393-401 | a "Bearer x" header gives x; a bare "Bearer" gives no token even with a cookie; any other header falls back to the cookie |
| AuthController.StaleIff | controllers/authController.js:424-433 | a token is stale exactly when the password changed in a later whole second than the token's `iat` |
| AuthController.ProtectSucceedsIff | controllers/authController.js:392-442 | a request passes exactly with a verifiable token for an existing account whose password has not changed since; `req.user` is that account's id, name, email and role; `isActive` is not checked; no token, a vanished account and a stale password are 401s, and a token the library rejects passes on the library's error |
| AuthController.TokenSurvivesReset | controllers/authController.js:371-376 | a password reset does not invalidate tokens issued before it, because passwordChangedAt is never written |
| AuthController.RestrictTo | controllers/authController.js:444-455 | passes exactly for a listed role; otherwise it clears `req.pgClient` and fails with 403; without `req.user` it throws a TypeError |
| AuthController.SignupVerifyLogin | controllers/authController.js:16-203 | after signup, login is refused as unverified; the mailed OTP verifies; login then succeeds |
| UserController.GetMe | controllers/userController.js:15-37 | the tables and response are GetMeSpec's |
| UserController.GetMeReturnsWholeRow | controllers/userController.js:23-33 | getMe returns the caller's whole row, password hash, OTP and reset token included; a missing row gives an AppError without status code |
| UserController.UpdateMe | controllers/userController.js:39-87 | the tables and response are UpdateMeSpec's |
| UserController.UpdateMeRenames | controllers/userController.js:39-87 | succeeds exactly with a new, different name for an existing caller, and then changes only that row's name; a missing name is a 400 before connecting, an unchanged name a 400, a vanished caller the TypeError |
| UserController.UpdateMyPassword | controllers/userController.js:89-133 | the tables and response are UpdateMyPasswordSpec's |
| UserController.UpdateMyPasswordNeverWrites | controllers/userController.js:89-133 | every call fails without touching the database: either a 400 from the field checks or the ReferenceError on `client` |
| UserController.DeleteMe | controllers/userController.js:135-185 | the tables and response are DeleteMeSpec's |
| UserController.DeleteMeDeactivates | controllers/userController.js:135-185 | succeeds exactly with both fields, the caller's own email and the right password; it clears isActive only and the jwt cookie, after which login fails; a missing field is a 400 before connecting, a wrong password a 401, another email a TypeError |
| UserController.GetUser | controllers/userController.js:267-292 | the tables and response are GetUserSpec's |
| UserController.DeleteUser | controllers/userController.js:191-225 | the tables and response are DeleteUserSpec's |
| UserController.AdminHandlersTargetOneRow | controllers/userController.js:191-292 | getUser returns exactly the named row; deleteUser soft-deletes exactly the named row and no other; a malformed id gives 22P02; a missing or unknown id is a 404 from both |
| UserController.GetAllUsers | controllers/userController.js:227-265 | sends the SELECT built from the query-string helpers with aligned parameter values; the response follows the database's answer |
| UserController.UsersSqlIgnoresFilterValues | controllers/userController.js:227-248 | two queries with the same keys and the same control values send the same statement text |
| PostController.CreatePost | controllers/postController.js:9-47 | the tables and response are CreatePostSpec's; its client is never recorded in `req.pgClient` |
| PostController.CreatePostAddsOne | controllers/postController.js:9-47 | succeeds exactly with a title, content and an existing author; it adds exactly one post under a fresh id; failures change nothing |
| PostController.GetPost | controllers/postController.js:104-134 | the tables and response are GetPostSpec's |
| PostController.GetPostFinds | controllers/postController.js:104-134 | on valid tables every stored post is found, with its author's name and email, and no other id is: a malformed id gives 22P02 and every other miss a 404 |
| PostController.PostsStatement | controllers/postController.js:57-83 | builds the getAllPosts statement, with the fixed column list, and parameter values aligned with the filters |
| PostController.GetAllPosts | controllers/postController.js:49-102 | sends PostsStatement's statement; the response follows the database's answer |
| PostController.PostsSqlIgnoresFields | controllers/postController.js:69-74 | a `fields` parameter has no effect on the statement sent |
| PostController.UpdatePost | controllers/postController.js:136-174 | the tables and response are UpdatePostSpec's |
| PostController.UpdatePostRewrites | controllers/postController.js:136-174 | any signed-in user can edit any existing post; only the given title and content change |
| PostController.DeletePost | controllers/postController.js:176-199 | the tables and response are DeletePostSpec's |
| PostController.DeletePostOwnerOnly | controllers/postController.js:176-199 | only the author deletes a post, which removes it with its comments; anyone else gets the same 404 as for a missing post |
| CommentController.CreateComment | controllers/commentController.js:5-49 | the tables and response are CreateCommentSpec's |
| CommentController.CreateCommentSucceedsIff | controllers/commentController.js:5-49 | succeeds exactly with content, an existing post and an existing author, adding one comment; without a post id the NOT NULL constraint fails |
| CommentController.GetComment | controllers/commentController.js:51-86 | the tables and response are GetCommentSpec's |
| CommentController.GetCommentFinds | controllers/commentController.js:51-86 | a comment is found exactly when it exists on the post named by the route; a given malformed id gives 22P02 and every other miss a 404 |
| CommentController.GetAllComments | controllers/commentController.js:88-119 | the tables and response are GetAllCommentsSpec's |
| CommentController.GetAllCommentsLists | controllers/commentController.js:88-119 | lists exactly the comments on the post; 404 exactly when there are none; a malformed post id gives 22P02 |
| CommentController.UpdateComment | controllers/commentController.js:121-162 | the tables and response are UpdateCommentSpec's |
| CommentController.UpdateCommentOwnerOnly | controllers/commentController.js:121-162 | only the comment's author, on the comment's own post, can change it, and only its content changes; missing content or id is a 400 before connecting, a malformed id gives 22P02, and any other refusal is the 404 |
| CommentController.DeleteComment | controllers/commentController.js:164-187 | the tables and response are DeleteCommentSpec's |
| CommentController.DeleteCommentOwnerOnly | controllers/commentController.js:164-187 | only the author deletes a comment, exactly that row; a refusal reads "Post not found." |
| CommentController.DeletedPostHasNoComments | controllers/postController.js:183-186 | after a post is deleted, listing its comments gives 404 |
| Routes.CreatePostRoute | routes/postRoutes.js:11-16 | after protectRoute passes, any createPost failure crashes the error middleware, which releases protectRoute's client a second time |
| Routes.UpdatePostRoute | routes/postRoutes.js:9-23 | protectRoute runs twice and passes both times; an empty body crashes the error middleware; later failures get a normal response |
| Routes.GetUserRoute | routes/userRoutes.js:17-20 | a non-admin gets an ordinary 403; an admin gets getUser's answer; the pool is idle afterwards |

## Left out

- AppError.js is not part of this model. The model assumes the usual shape: status "fail" for a 4xx code and "error" otherwise, and `isOperational` true.
- asyncHandler.js is not part of this model. It is assumed to forward a thrown error or a rejected promise to `next`.
- bcrypt, SHA-256, the email check and the JWT library are opaque total functions. Salting and token expiry live inside them.
- OTP generation, reset-token generation and email delivery are parameters of each call, not modelled randomness or I/O.
- JSON bodies other than strings are not modelled. A field is a string, and "" stands for absent, null and every other falsy value.
- `Number(...)` is modelled on integer text with an optional sign. Decimals, exponents, surrounding whitespace, 0x, 0b and 0o literals and "Infinity" read as NaN in the model, though JavaScript reads them as numbers.
- NumberOr: does not model the values that "1.5", "1e3", " 2 ", "0x10", "0b1", "0o7" or "Infinity" give in JavaScript (those texts fall to the default here), nor the double rounding of integers above 2^53.
- Coerce: binds "1.5", "1e3", " 2 ", "0x10", "0b1", "0o7" and "Infinity" as text where JavaScript binds them as numbers, and keeps integers above 2^53 exact where JavaScript rounds them.
- PaginationRoundTrip: holds for exact integers only. JavaScript rounds a product above 2^53 and prints a limit or offset of 1e21 or more in exponent form ("1e+21"), so such a clause would not read back.
- The query string is a flat list of string pairs. qs's nested objects and repeated keys (arrays) are not modelled.
- `for...in` order is modelled as the order of the pairs.
- Column width limits (VARCHAR sizes) are not modelled.
- Statements built from the query string are returned as text and are not executed. Their rows or SQL error are a `SqlAnswer` parameter.
- The response rows of getAllPosts and getAllUsers are reduced to their count.
- Cookie options are not modelled. TIMESTAMP values are milliseconds; time zones are not modelled.
- Concurrency, other requests between the steps of one request, and pool exhaustion are not modelled.
- The "no row returned" branches after an UPDATE or INSERT with RETURNING are not modelled. With one request at a time they cannot be reached, because the handler has just found or inserted the row. This covers resetPassword's 500, updateMe's 500, deleteMe's and deleteUser's 400, updatePost's 500 and createComment's 500.
- A failing ROLLBACK inside signup, resendOTP and forgotPassword is not modelled. The error middleware's own ROLLBACK may throw: that is the `rollbackThrows` flag of `Handle`.
- What Express does after the asynchronous error middleware rejects is not modelled. The model records `Crashed`, meaning no response from the middleware.
- CreatePost and Runtime.Database.Connect: every `connect()` is modelled as a fresh lease object, while pg-pool may hand the same Client object out again. A release through a stale reference to a reused Client is therefore not modelled.
- Only three routes are chained in `Routes`. The other routes follow the same pattern and are covered per handler.
- `reActivateMe` is an empty handler that no route mounts.
- Logging (`console.log`, morgan) and server start-up are not modelled.
- String lengths are sequence lengths. JavaScript's UTF-16 code units are not modelled, which matters only for the 6-character password check on astral characters.
