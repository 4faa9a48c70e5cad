/** The comment handlers. They serve both `/api/v1/posts/:postId/comments`,
    where the post id comes from the parent route, and
    `/api/v1/comments`, where there is none (`Absent`), and all run behind
    protectRoute. Every parameter of a statement is bound as given, so any
    id that is not a UUID makes the statement fail with SQLSTATE 22P02. */
module CommentController {
  import opened Basics
  import opened Schema
  import opened Http
  import opened Runtime

  const CommentContentRequired := "Comment content is required."
  const CommentNotFound := "Comment not found."
  const NoCommentsFound := "No comments found."
  const ContentRequired := "Content is required."
  const PostNotFound := "Post not found."

  const NullPostText := "null value in column \"post_id\" of relation \"comments\" violates not-null constraint"
  const MissingReferenceText := "insert or update on table \"comments\" violates foreign key constraint"

  /** comments.post_id is NOT NULL: an absent post id is bound as NULL. */
  function NullPost(): (e: Failure)
    ensures e.code == "23502" && e.column == "post_id"
  {
    DatabaseError("23502", "post_id", NullPostText)
  }

  /** comments.post_id REFERENCES posts(id), comments.user_id REFERENCES users(id). */
  function MissingReference(): (e: Failure)
    ensures e.code == "23503"
  {
    DatabaseError("23503", "", MissingReferenceText)
  }

  /** Some bound id is text that is not a UUID. */
  predicate AnyNotUuid(ids: seq<IdParam>)
  {
    exists i :: 0 <= i < |ids| && ids[i].NotUuid?
  }

  // ================================================================ createComment

  /** `POST .../comments`. */
  function CreateCommentSpec(t: Tables, me: Identity, newId: CommentId, postId: IdParam,
                             content: string, now: int): Outcome
  {
    if content == "" then Outcome(t, Reject(CommentContentRequired, 400), Unconnected)
    else if postId.NotUuid? then Outcome(t, Fail(BadUuid()), InTxn)
    else if postId.Absent? then Outcome(t, Fail(NullPost()), InTxn)
    else if postId.id !in t.posts || me.id !in t.users then Outcome(t, Fail(MissingReference()), InTxn)
    else
      Outcome(t.(comments := t.comments[newId := Comment(postId.id, me.id, content, now)]),
              Respond(201, CommentCreated(newId, postId.id, me.name, content, now), KeepCookie), Released)
  }

  method CreateComment(db: Database, req: Request, postId: IdParam, content: string, now: int)
    returns (r: HandlerResult)
    requires db.Idle() && req.user.Some?
    modifies db, req
    ensures db.Valid() && req.user == old(req.user)
    ensures var o := CreateCommentSpec(old(db.tables), old(req.user).value, old(db.nextId), postId, content, now);
      && r == o.result && db.tables == o.tables
      && Left(o.reach, old(db.tables), old(db.nextLease), old(req.pgClient), req.pgClient, db.leased, db.txn)
  {
    if content == "" {
      return Reject(CommentContentRequired, 400);
    }
    var userId := req.user.value.id;
    var author := req.user.value.name;
    var client := db.Connect();
    req.pgClient := Some(client);
    db.Begin(client);

    if postId.NotUuid? {
      return Fail(BadUuid());
    }
    if postId.Absent? {
      return Fail(NullPost());
    }
    if postId.id !in db.tables.posts || userId !in db.tables.users {
      return Fail(MissingReference());
    }
    var newCommentId := db.FreshId();
    var comment := Comment(postId.id, userId, content, now);
    InsertCommentValid(db.tables, db.nextId, newCommentId, comment);
    db.Store(db.tables.(comments := db.tables.comments[newCommentId := comment]));
    db.Commit(client);
    var released := db.Release(client);
    r := Respond(201, CommentCreated(newCommentId, postId.id, author, content, now), KeepCookie);
  }

  /** A comment is created exactly when there is content and the post and
      the caller exist; it is the only change, under a fresh id. Under
      `/api/v1/comments` there is no post id and the insert always fails on
      the NOT NULL constraint. */
  lemma CreateCommentSucceedsIff(t: Tables, next: nat, me: Identity, postId: IdParam, content: string, now: int)
    requires TablesValid(t, next)
    ensures var o := CreateCommentSpec(t, me, next, postId, content, now);
      && (o.result.Respond? <==> content != "" && postId.Given? && postId.id in t.posts && me.id in t.users)
      && (o.result.Respond? ==>
            && next !in t.comments
            && o.tables == t.(comments := t.comments[next := Comment(postId.id, me.id, content, now)])
            && TablesValid(o.tables, next + 1))
      && (!o.result.Respond? ==> o.tables == t)
      && (content != "" && postId.Absent? ==> o.result == Fail(NullPost()))
  {
    if content != "" && postId.Given? && postId.id in t.posts && me.id in t.users {
      NextIdFree(t, next);
      InsertCommentValid(t, next + 1, next, Comment(postId.id, me.id, content, now));
    }
  }

  // ================================================================ getComment

  /** The comment `c` as the join with its author shows it. */
  function ViewOf(t: Tables, c: CommentId): (CommentId, PostId, string, string)
    requires c in t.comments && t.comments[c].userId in t.users
  {
    (c, t.comments[c].postId, t.comments[c].content, t.users[t.comments[c].userId].name)
  }

  /** `WHERE comments.id = $1 AND comments.post_id = $2`, joined with users. */
  predicate Shown(t: Tables, commentId: IdParam, postId: IdParam)
  {
    commentId.Given? && commentId.id in t.comments && Names(postId, t.comments[commentId.id].postId)
    && t.comments[commentId.id].userId in t.users
  }

  /** `GET .../comments/:commentId`. */
  function GetCommentSpec(t: Tables, postId: IdParam, commentId: IdParam): Outcome
  {
    if commentId.Absent? then Outcome(t, Reject(CommentNotFound, 404), Unconnected)
    else if AnyNotUuid([commentId, postId]) then Outcome(t, Fail(BadUuid()), InTxn)
    else if !Shown(t, commentId, postId) then Outcome(t, Reject(CommentNotFound, 404), InTxn)
    else
      var v := ViewOf(t, commentId.id);
      Outcome(t, Respond(200, CommentView(v.0, v.1, v.2, v.3), KeepCookie), Released)
  }

  method GetComment(db: Database, req: Request, postId: IdParam, commentId: IdParam) returns (r: HandlerResult)
    requires db.Idle()
    modifies db, req
    ensures db.Valid() && req.user == old(req.user)
    ensures var o := GetCommentSpec(old(db.tables), postId, commentId);
      && r == o.result && db.tables == o.tables
      && Left(o.reach, old(db.tables), old(db.nextLease), old(req.pgClient), req.pgClient, db.leased, db.txn)
  {
    if commentId.Absent? {
      return Reject(CommentNotFound, 404);
    }
    var client := db.Connect();
    req.pgClient := Some(client);
    db.Begin(client);

    if commentId.NotUuid? || postId.NotUuid? {
      assert [commentId, postId][0] == commentId && [commentId, postId][1] == postId;
      return Fail(BadUuid());
    }
    if !Shown(db.tables, commentId, postId) {
      return Reject(CommentNotFound, 404);
    }
    var c := db.tables.comments[commentId.id];
    var author := db.tables.users[c.userId].name;
    db.Commit(client);
    var released := db.Release(client);
    r := Respond(200, CommentView(commentId.id, c.postId, c.content, author), KeepCookie);
  }

  /** On valid tables a comment is found exactly when it exists and belongs
      to the post named in the route, so under `/api/v1/comments` (no post
      id) no comment is ever found. A given id that is not a UUID comes back
      as SQLSTATE 22P02; every other miss is a 404. */
  lemma GetCommentFinds(t: Tables, next: nat, postId: IdParam, commentId: IdParam)
    requires TablesValid(t, next)
    ensures var o := GetCommentSpec(t, postId, commentId);
      && o.tables == t
      && (!commentId.Absent? && (commentId.NotUuid? || postId.NotUuid?) ==> o.result == Fail(BadUuid()))
      && (!commentId.NotUuid? && !postId.NotUuid? && !o.result.Respond? ==> o.result == Reject(CommentNotFound, 404))
      && (o.result.Respond? <==>
            commentId.Given? && postId.Given? && commentId.id in t.comments
            && t.comments[commentId.id].postId == postId.id)
      && (o.result.Respond? ==>
            var c := t.comments[commentId.id];
            o.result.payload == CommentView(commentId.id, postId.id, c.content, t.users[c.userId].name))
  {
    assert [commentId, postId][0] == commentId && [commentId, postId][1] == postId;
  }

  // ================================================================ getAllComments

  /** The rows of `WHERE comments.post_id = $1`, joined with their authors. */
  function CommentsOn(t: Tables, postId: IdParam): set<(CommentId, PostId, string, string)>
  {
    set c | c in t.comments && Names(postId, t.comments[c].postId) && t.comments[c].userId in t.users
      :: ViewOf(t, c)
  }

  /** `GET .../comments`. */
  function GetAllCommentsSpec(t: Tables, postId: IdParam): Outcome
  {
    if postId.NotUuid? then Outcome(t, Fail(BadUuid()), InTxn)
    else if CommentsOn(t, postId) == {} then Outcome(t, Reject(NoCommentsFound, 404), InTxn)
    else Outcome(t, Respond(200, CommentViews(CommentsOn(t, postId)), KeepCookie), Released)
  }

  method GetAllComments(db: Database, req: Request, postId: IdParam) returns (r: HandlerResult)
    requires db.Idle()
    modifies db, req
    ensures db.Valid() && req.user == old(req.user)
    ensures var o := GetAllCommentsSpec(old(db.tables), postId);
      && r == o.result && db.tables == o.tables
      && Left(o.reach, old(db.tables), old(db.nextLease), old(req.pgClient), req.pgClient, db.leased, db.txn)
  {
    var client := db.Connect();
    req.pgClient := Some(client);
    db.Begin(client);

    if postId.NotUuid? {
      return Fail(BadUuid());
    }
    var comments := CommentsOn(db.tables, postId);
    if comments == {} {
      return Reject(NoCommentsFound, 404);
    }
    db.Commit(client);
    var released := db.Release(client);
    r := Respond(200, CommentViews(comments), KeepCookie);
  }

  /** On valid tables the listing holds one row for every comment on the
      post and nothing else, and it is refused with 404 exactly when the
      post has no comment (including when there is no post id at all); a
      post id that is not a UUID comes back as SQLSTATE 22P02. */
  lemma GetAllCommentsLists(t: Tables, next: nat, postId: IdParam)
    requires TablesValid(t, next)
    ensures var o := GetAllCommentsSpec(t, postId);
      && o.tables == t
      && (postId.NotUuid? ==> o.result == Fail(BadUuid()))
      && (!postId.NotUuid? && !o.result.Respond? ==> o.result == Reject(NoCommentsFound, 404))
      && (o.result.Respond? <==>
            postId.Given? && exists c :: c in t.comments && t.comments[c].postId == postId.id)
      && (o.result.Respond? ==>
            forall c :: c in t.comments ==>
              ((t.comments[c].postId == postId.id) <==> ViewOf(t, c) in o.result.payload.views))
      && (o.result.Respond? ==>
            forall v :: v in o.result.payload.views ==> v.0 in t.comments && v == ViewOf(t, v.0))
  {
    if postId.Given? && exists c :: c in t.comments && t.comments[c].postId == postId.id {
      var c :| c in t.comments && t.comments[c].postId == postId.id;
      assert ViewOf(t, c) in CommentsOn(t, postId);
    }
  }

  // ================================================================ updateComment

  /** `UPDATE comments SET content = $1 WHERE id = $2 AND post_id = $3 AND user_id = $4`. */
  predicate Owned(t: Tables, me: Identity, postId: IdParam, commentId: IdParam)
  {
    commentId.Given? && commentId.id in t.comments && Names(postId, t.comments[commentId.id].postId)
    && t.comments[commentId.id].userId == me.id
  }

  /** `PATCH .../comments/:commentId`. */
  function UpdateCommentSpec(t: Tables, me: Identity, postId: IdParam, commentId: IdParam, content: string): Outcome
  {
    if content == "" || commentId.Absent? || postId.Absent? then Outcome(t, Reject(ContentRequired, 400), Unconnected)
    else if AnyNotUuid([commentId, postId]) then Outcome(t, Fail(BadUuid()), InTxn)
    else if !Owned(t, me, postId, commentId) then Outcome(t, Reject(CommentNotFound, 404), InTxn)
    else
      Outcome(t.(comments := t.comments[commentId.id := t.comments[commentId.id].(content := content)]),
              Respond(200, CommentUpdated(commentId.id, postId.id, me.id, me.name, content), KeepCookie),
              Released)
  }

  method UpdateComment(db: Database, req: Request, postId: IdParam, commentId: IdParam, content: string)
    returns (r: HandlerResult)
    requires db.Idle() && req.user.Some?
    modifies db, req
    ensures db.Valid() && req.user == old(req.user)
    ensures var o := UpdateCommentSpec(old(db.tables), old(req.user).value, postId, commentId, content);
      && r == o.result && db.tables == o.tables
      && Left(o.reach, old(db.tables), old(db.nextLease), old(req.pgClient), req.pgClient, db.leased, db.txn)
  {
    if content == "" || commentId.Absent? || postId.Absent? {
      return Reject(ContentRequired, 400);
    }
    var client := db.Connect();
    req.pgClient := Some(client);
    var userId := req.user.value.id;
    var author := req.user.value.name;
    db.Begin(client);

    if commentId.NotUuid? || postId.NotUuid? {
      assert [commentId, postId][0] == commentId && [commentId, postId][1] == postId;
      return Fail(BadUuid());
    }
    if !Owned(db.tables, req.user.value, postId, commentId) {
      return Reject(CommentNotFound, 404);
    }
    var updated := db.tables.comments[commentId.id].(content := content);
    ReplaceCommentValid(db.tables, db.nextId, commentId.id, updated);
    db.Store(db.tables.(comments := db.tables.comments[commentId.id := updated]));
    db.Commit(client);
    var released := db.Release(client);
    r := Respond(200, CommentUpdated(commentId.id, postId.id, userId, author, content), KeepCookie);
  }

  /** Only the comment's author, on the comment's own post, can change it;
      only its content changes. Anyone else gets the same 404 as for a
      comment that does not exist. Missing content or a missing id is a 400
      before any client is taken, and an id that is not a UUID comes back as
      SQLSTATE 22P02. */
  lemma UpdateCommentOwnerOnly(t: Tables, next: nat, me: Identity, postId: IdParam, commentId: IdParam,
                               content: string)
    requires TablesValid(t, next)
    ensures var o := UpdateCommentSpec(t, me, postId, commentId, content);
      && (content == "" || commentId.Absent? || postId.Absent? ==>
            o == Outcome(t, Reject(ContentRequired, 400), Unconnected))
      && (content != "" && !commentId.Absent? && !postId.Absent? && (commentId.NotUuid? || postId.NotUuid?) ==>
            o.result == Fail(BadUuid()))
      && (content != "" && commentId.Given? && postId.Given? && !o.result.Respond? ==>
            o.result == Reject(CommentNotFound, 404))
      && (o.result.Respond? <==>
            content != "" && postId.Given? && commentId.Given? && commentId.id in t.comments
            && t.comments[commentId.id].postId == postId.id && t.comments[commentId.id].userId == me.id)
      && (o.result.Respond? ==>
            && o.tables.comments.Keys == t.comments.Keys
            && o.tables.comments[commentId.id] == t.comments[commentId.id].(content := content)
            && (forall c :: c in t.comments && c != commentId.id ==> o.tables.comments[c] == t.comments[c])
            && o.tables.users == t.users && o.tables.posts == t.posts)
      && (!o.result.Respond? ==> o.tables == t)
      && TablesValid(o.tables, next)
  {
    if content == "" || commentId.Absent? || postId.Absent? {
    } else if AnyNotUuid([commentId, postId]) {
      assert commentId.NotUuid? || postId.NotUuid?;
    } else if !Owned(t, me, postId, commentId) {
      assert [commentId, postId][0] == commentId && [commentId, postId][1] == postId;
    } else {
      var c := t.comments[commentId.id];
      ReplaceCommentValid(t, next, commentId.id, c.(content := content));
    }
  }

  // ================================================================ deleteComment

  /** `DELETE .../comments/:commentId`. */
  function DeleteCommentSpec(t: Tables, me: Identity, postId: IdParam, commentId: IdParam): Outcome
  {
    if AnyNotUuid([commentId, postId]) then Outcome(t, Fail(BadUuid()), Held)
    else if !Owned(t, me, postId, commentId) then Outcome(t, Reject(PostNotFound, 404), Held)
    else Outcome(t.(comments := t.comments - {commentId.id}), Respond(204, NoData, KeepCookie), Released)
  }

  method DeleteComment(db: Database, req: Request, postId: IdParam, commentId: IdParam) returns (r: HandlerResult)
    requires db.Idle() && req.user.Some?
    modifies db, req
    ensures db.Valid() && req.user == old(req.user)
    ensures var o := DeleteCommentSpec(old(db.tables), old(req.user).value, postId, commentId);
      && r == o.result && db.tables == o.tables
      && Left(o.reach, old(db.tables), old(db.nextLease), old(req.pgClient), req.pgClient, db.leased, db.txn)
  {
    var me := req.user.value;
    var client := db.Connect();
    req.pgClient := Some(client);

    if commentId.NotUuid? || postId.NotUuid? {
      assert [commentId, postId][0] == commentId && [commentId, postId][1] == postId;
      return Fail(BadUuid());
    }
    if !Owned(db.tables, me, postId, commentId) {
      return Reject(PostNotFound, 404);
    }
    DeleteCommentValid(db.tables, db.nextId, commentId.id);
    db.Store(db.tables.(comments := db.tables.comments - {commentId.id}));
    db.Commit(client);
    var released := db.Release(client);
    r := Respond(204, NoData, KeepCookie);
  }

  /** Only the comment's author, on the comment's own post, can delete it;
      exactly that one row goes. A refusal reads "Post not found.". */
  lemma DeleteCommentOwnerOnly(t: Tables, next: nat, me: Identity, postId: IdParam, commentId: IdParam)
    requires TablesValid(t, next)
    ensures var o := DeleteCommentSpec(t, me, postId, commentId);
      && (o.result.Respond? <==>
            postId.Given? && commentId.Given? && commentId.id in t.comments
            && t.comments[commentId.id].postId == postId.id && t.comments[commentId.id].userId == me.id)
      && (o.result.Respond? ==> o.tables == t.(comments := t.comments - {commentId.id}))
      && (!o.result.Respond? ==> o.tables == t)
      && (o.result.Fail? && !AnyNotUuid([commentId, postId]) ==> o.result == Reject(PostNotFound, 404))
      && TablesValid(o.tables, next)
  {
    if postId.Given? && commentId.Given? {
      assert !AnyNotUuid([commentId, postId]);
    }
    if postId.Given? && commentId.Given? {
      DeleteCommentValid(t, next, commentId.id);
    }
  }

  /** With its post deleted (by its author), a post's comments are gone:
      listing them is refused with 404. */
  lemma DeletedPostHasNoComments(t: Tables, next: nat, pid: PostId)
    requires TablesValid(t, next)
    ensures GetAllCommentsSpec(RemovePost(t, pid), Given(pid)).result == Reject(NoCommentsFound, 404)
  {
    var t2 := RemovePost(t, pid);
    assert CommentsOn(t2, Given(pid)) == {};
  }
}
