/** What a handler hands back to Express: a JSON response, an error passed to
    `next(err)` (or thrown inside `asyncHandler`, which forwards it the same
    way), or a plain `next()` to the following middleware. */
module Http {
  import opened Basics
  import opened Schema

  /** A JavaScript error object as the error handler sees it. Absent
      properties are JavaScript-falsy: `statusCode` 0, `status`, `code`,
      `column` the empty string, `isOperational` false. */
  datatype Failure = Failure(
    message: string,
    statusCode: int,
    status: string,
    isOperational: bool,
    code: string,
    column: string,
    name: string)

  /** `new AppError(message, statusCode)`, with statusCode 0 when the call
      leaves it out; status "fail" for a 4xx code and "error" otherwise,
      isOperational true. */
  function AppError(message: string, statusCode: int): (e: Failure)
    ensures e.isOperational && e.code == "" && e.name == "Error" && e.message == message
    ensures e.status == (if 400 <= statusCode < 500 then "fail" else "error")
  {
    Failure(message, statusCode, if 400 <= statusCode < 500 then "fail" else "error",
            true, "", "", "Error")
  }

  /** An error raised by PostgreSQL: it carries the SQLSTATE `code` and, for
      a NOT NULL violation, the `column`. */
  function DatabaseError(code: string, column: string, message: string): (e: Failure)
    ensures !e.isOperational && e.statusCode == 0 && e.code == code
  {
    Failure(message, 0, "", false, code, column, "error")
  }

  /** An exception of the JavaScript runtime or a library (`TypeError`,
      `ReferenceError`, `JsonWebTokenError`, ...). */
  function RuntimeError(name: string, message: string): (e: Failure)
    ensures !e.isOperational && e.statusCode == 0 && e.code == "" && e.name == name
  {
    Failure(message, 0, "", false, "", "", name)
  }

  /** A route parameter that names a row: absent (the route does not have
      it), text that is not a UUID, or the id of a row. */
  datatype IdParam = Absent | NotUuid | Given(id: nat)

  const BadUuidText := "invalid input syntax for type uuid"

  /** `invalid input syntax for type uuid`, raised by any query that binds a
      parameter that is not a UUID. */
  function BadUuid(): (e: Failure)
    ensures e.code == "22P02" && !e.isOperational
  {
    DatabaseError("22P02", "", BadUuidText)
  }

  /** `col = $n` with the parameter bound: an absent parameter is bound as
      NULL, which equals nothing. */
  predicate Names(p: IdParam, id: nat)
  {
    p.Given? && p.id == id
  }

  /** What a login sets on, or a deletion clears from, the `jwt` cookie. */
  datatype Cookie = KeepCookie | SetJwt(token: string) | ClearJwt

  /** The `data` (or `message`) part of a success envelope. */
  datatype Payload =
    | Message(text: string)
    | NewUser(userId: UserId, userName: string, userEmail: string)
    | LoggedIn(jwt: string, loggedId: UserId, loggedName: string, loggedEmail: string)
    | Profile(profileId: UserId, profileName: string, profileEmail: string)
    | UserRow(rowId: UserId, row: Account)
    | Rows(count: nat)
    | PostCreated(postId: PostId, title: string, content: string, author: string, createdAt: int)
    | PostView(viewId: PostId, viewTitle: string, viewContent: string, viewCreatedAt: int,
               authorName: string, authorEmail: string)
    | PostRow(updatedId: PostId, post: Post)
    | CommentCreated(commentId: CommentId, onPost: PostId, commentAuthor: string,
                     commentContent: string, commentCreatedAt: int)
    | CommentView(viewCommentId: CommentId, viewPostId: PostId, viewText: string, viewAuthor: string)
    | CommentViews(views: set<(CommentId, PostId, string, string)>)
    | CommentUpdated(updatedCommentId: CommentId, updatedPostId: PostId, updatedUserId: UserId,
                     updatedAuthor: string, updatedContent: string)
    | NoData

  datatype HandlerResult =
    | Respond(httpStatus: int, payload: Payload, cookie: Cookie)
    | Fail(error: Failure)
    | Pass

  /** `next(new AppError(message, statusCode))`. */
  function Reject(message: string, statusCode: int): (r: HandlerResult)
    ensures r.Fail? && r.error.isOperational && r.error.message == message && r.error.statusCode == statusCode
  {
    Fail(AppError(message, statusCode))
  }

  /** What the error handler leaves on the wire. `Silent` is no response at
      all (an unknown NODE_ENV); `Crashed` is the handler itself throwing. */
  datatype Rendered =
    | Rendered(httpStatus: int, status: string, message: string, detail: Option<Failure>)
    | Silent
    | Crashed(thrown: Failure)
}
