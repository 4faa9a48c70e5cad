/** Three routes end to end, as app.js and the routers chain them: the
    guards, the handler, and the error middleware when the handler fails.

    protectRoute's success commits and releases its client but leaves it in
    `req.pgClient`. A later failure that does not replace `req.pgClient`
    therefore reaches the error middleware with a client that is already
    back in the pool, and its second `release()` throws out of the
    middleware: no response is written. */
module Routes {
  import opened Schema
  import opened Http
  import opened Runtime
  import opened GlobalErrorHandler
  import AuthController
  import PostController
  import UserController

  /** What the client gets: the handler's own response, or whatever the
      error middleware left on the wire. */
  datatype Response = Sent(httpStatus: int, payload: Payload, cookie: Cookie) | Errored(rendered: Rendered)

  /** `POST /api/v1/posts`: postsRouter's protectRoute, then createPost.
      Every createPost failure, from a body without title or content
      rejected before createPost connects onwards, ends in the error
      middleware's crash. */
  method CreatePostRoute(db: Database, req: Request, authorization: string, cookie: string,
                         ext: AuthController.Externals, now: int, title: string, content: string,
                         env: string, rollbackThrows: bool)
    returns (out: Response)
    requires db.Idle() && req.pgClient.None?
    modifies db, req
    ensures db.Valid()
    ensures var g := AuthController.ProtectSpec(old(db.tables), authorization, cookie, ext, now);
      && (g.result.Fail? ==>
            && out == Errored(Render(g.result.error, env)) && db.tables == old(db.tables)
            && (!rollbackThrows ==> db.Idle()))
      && (g.result.Pass? ==>
            var o := PostController.CreatePostSpec(old(db.tables), g.user.value, old(db.nextId), title, content, now);
            && (o.result.Respond? ==>
                  out == Sent(o.result.httpStatus, o.result.payload, o.result.cookie) && db.tables == o.tables && db.Idle())
            && (o.result.Fail? ==> out == Errored(Crashed(DoubleRelease)) && db.tables == old(db.tables)))
  {
    var r := AuthController.ProtectRoute(db, req, authorization, cookie, ext, now);
    if r.Fail? {
      var rendered := Handle(db, req, r.error, env, rollbackThrows);
      out := Errored(rendered);
      return;
    }
    r := PostController.CreatePost(db, req, title, content, now);
    if r.Fail? {
      var rendered := Handle(db, req, r.error, env, rollbackThrows);
      out := Errored(rendered);
      return;
    }
    out := Sent(r.httpStatus, r.payload, r.cookie);
  }

  /** `PATCH /api/v1/posts/:postId`: the path first passes through
      commentRouter, mounted at `/:postId`, whose protectRoute runs, then
      postsRouter's own protectRoute, then updatePost. An empty body crashes
      the error middleware; a failure after updatePost connects is answered
      normally, since its client replaced the guard's in `req.pgClient`. */
  method UpdatePostRoute(db: Database, req: Request, authorization: string, cookie: string,
                         ext: AuthController.Externals, now: int, postId: IdParam,
                         title: string, content: string, env: string)
    returns (out: Response)
    requires db.Idle() && req.pgClient.None?
    modifies db, req
    ensures db.Valid()
    ensures var g := AuthController.ProtectSpec(old(db.tables), authorization, cookie, ext, now);
      && (g.result.Fail? ==> out == Errored(Render(g.result.error, env)) && db.tables == old(db.tables) && db.Idle())
      && (g.result.Pass? ==>
            var o := PostController.UpdatePostSpec(old(db.tables), postId, title, content);
            && (o.result.Respond? ==>
                  out == Sent(o.result.httpStatus, o.result.payload, o.result.cookie) && db.tables == o.tables)
            && (o.result.Fail? && o.reach == Unconnected ==> out == Errored(Crashed(DoubleRelease)))
            && (o.result.Fail? && o.reach == Held ==> out == Errored(Render(o.result.error, env)))
            && (o.result.Fail? ==> db.tables == old(db.tables))
            && db.Idle())
  {
    var r := AuthController.ProtectRoute(db, req, authorization, cookie, ext, now);
    if r.Fail? {
      var rendered := Handle(db, req, r.error, env, false);
      out := Errored(rendered);
      return;
    }
    // postsRouter's protectRoute repeats the check on the same tables, so it passes too.
    r := AuthController.ProtectRoute(db, req, authorization, cookie, ext, now);
    assert r.Pass?;
    r := PostController.UpdatePost(db, req, postId, title, content);
    if r.Fail? {
      var rendered := Handle(db, req, r.error, env, false);
      out := Errored(rendered);
      return;
    }
    out := Sent(r.httpStatus, r.payload, r.cookie);
  }

  /** `GET /api/v1/users/user/:userId`: protectRoute, restrictTo("admin"),
      getUser. restrictTo clears `req.pgClient` before refusing, so a caller
      who is not an admin gets an ordinary 403. */
  method GetUserRoute(db: Database, req: Request, authorization: string, cookie: string,
                      ext: AuthController.Externals, now: int, userId: IdParam, env: string)
    returns (out: Response)
    requires db.Idle() && req.pgClient.None?
    modifies db, req
    ensures db.Valid() && db.tables == old(db.tables)
    ensures var g := AuthController.ProtectSpec(old(db.tables), authorization, cookie, ext, now);
      && (g.result.Fail? ==> out == Errored(Render(g.result.error, env)))
      && (g.result.Pass? && g.user.value.role != Admin ==>
            out == Errored(Render(AppError(AuthController.Forbidden, 403), env)))
      && (g.result.Pass? && g.user.value.role == Admin ==>
            var o := UserController.GetUserSpec(old(db.tables), userId);
            && (o.result.Respond? ==> out == Sent(o.result.httpStatus, o.result.payload, o.result.cookie))
            && (o.result.Fail? ==> out == Errored(Render(o.result.error, env))))
      && db.Idle()
  {
    var r := AuthController.ProtectRoute(db, req, authorization, cookie, ext, now);
    if r.Fail? {
      var rendered := Handle(db, req, r.error, env, false);
      out := Errored(rendered);
      return;
    }
    r := AuthController.RestrictTo([Admin], req);
    if r.Fail? {
      var rendered := Handle(db, req, r.error, env, false);
      out := Errored(rendered);
      return;
    }
    r := UserController.GetUser(db, req, userId);
    if r.Fail? {
      var rendered := Handle(db, req, r.error, env, false);
      out := Errored(rendered);
      return;
    }
    out := Sent(r.httpStatus, r.payload, r.cookie);
  }
}
